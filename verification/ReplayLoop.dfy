/**
 * Failure and replay as one loop: what the normalizer dead-letters is what the replay worker is
 * given, and what the worker publishes is delivered to the normalizer again.
 */
module ReplayLoop {
  import opened Wrappers
  import opened Text
  import opened Replay
  import opened ReplayReservation
  import opened Sorting
  import N = NormalizerProtocol
  import P = ReplayProtocol

  /** `inbox` is the raw stream in delivery order, replays included; message `i` has sequence `i + 1`. */
  datatype System = System(normalizer: N.System, replay: P.System, inbox: seq<Message>)

  /** The payload digest, and the message identity an envelope carries, where it can be decoded. */
  datatype Codec = Codec(sha: Digest, envelopeId: Payload -> Option<string>)

  /** `remembered` says whether the dead-letter stream still knows the identities it stored. */
  datatype Step =
    | Ingest(messageId: string, requestId: string, data: Payload)
    | Normalize(normalizing: N.Step, recordId: string, remembered: bool)
    | Work(working: P.Step)

  /** A raw publication: it carries no replay lineage. */
  function Original(messageId: string, requestId: string, data: Payload): Message {
    Message(RAW_PERSISTED_SUBJECT,
            (if requestId == "" then map[] else map[REQUEST_ID_HEADER := requestId])
            + map[MESSAGE_ID_HEADER := messageId],
            data)
  }

  /** The parts fit together: the normalizer's stream is the inbox. */
  ghost predicate Wired(s: System) {
    ValidDb(s.replay.db) && N.Held(s.normalizer) && |s.inbox| == s.normalizer.size
  }

  ghost function Stored(c: Codec, s: System, m: Message): P.System
    requires ValidDb(s.replay.db)
  {
    var requestId := if REQUEST_ID_HEADER in m.headers then m.headers[REQUEST_ID_HEADER] else "";
    if |s.inbox| < MAX_UINT64
    then P.Next(c.sha, s.replay, P.Store(RawMessage(m.subject, |s.inbox| + 1, requestId, m.data)))
    else s.replay
  }

  /** The raw stream takes one more message. */
  ghost function Appended(c: Codec, s: System, m: Message): (t: System)
    requires Wired(s)
    ensures Wired(t)
  {
    hide ValidDb, N.Held, P.Next;
    N.StepKeepsHeld(s.normalizer, N.Append);
    System(N.Next(s.normalizer, N.Append), Stored(c, s, m), s.inbox + [m])
  }

  /** The record of a dead-lettered message. */
  function Letter(c: Codec, s: System, d: N.DeadLetter, recordId: string): DeadLetter
    requires d.index < |s.inbox|
  {
    var m := s.inbox[d.index];
    FromMessage(c.sha, m, if d.index < MAX_UINT64 then Some(d.index + 1) else None, recordId,
                c.envelopeId(m.data), d.state.retryable)
  }

  /** New record identifiers are not in use, and have no white space around them. */
  predicate Fresh(queue: seq<DeadLetter>, recordId: string) {
    Trim(recordId) == recordId && forall i :: 0 <= i < |queue| ==> queue[i].recordId != recordId
  }

  predicate Known(queue: seq<DeadLetter>, id: string) {
    exists i :: 0 <= i < |queue| && DlqMessageId(queue[i]) == id
  }

  lemma DeadGrows(s: N.System, step: N.Step)
    requires N.Held(s) && !step.Append?
    ensures var t := N.Next(s, step);
            && t.size == s.size
            && (t.dead == s.dead
                || (|t.dead| == |s.dead| + 1 && t.dead[..|s.dead|] == s.dead && t.dead[|s.dead|].index < s.size))
  {
    hide N.KeyOf, N.Find, N.Recorded, N.R.Step, N.R.IsolationRequired, N.R.ValidKey;
  }

  ghost function Normalized(c: Codec, s: System, step: N.Step, recordId: string, remembered: bool): (t: System)
    requires Wired(s)
    ensures Wired(t)
  {
    hide ValidDb, N.Held, N.Next, P.Next, Letter;
    var t := N.Next(s.normalizer, step);
    N.StepKeepsHeld(s.normalizer, step);
    if step.Append? then s
    else
      DeadGrows(s.normalizer, step);
      var n := |s.normalizer.dead|;
      if |t.dead| == n then s.(normalizer := t)
      else if !Fresh(s.replay.queue, recordId) then s
      else
        var letter := Letter(c, s, t.dead[n], recordId);
        if remembered && Known(s.replay.queue, DlqMessageId(letter)) then s.(normalizer := t)
        else s.(normalizer := t, replay := P.Next(c.sha, s.replay, P.Arrive(letter)))
  }

  /** The worker's own steps; the queue and the raw stream are filled by the other parts. */
  predicate IsWork(step: P.Step) {
    !step.Store? && !step.Arrive? && !step.Fail?
  }

  ghost function Worked(c: Codec, s: System, step: P.Step): (t: System)
    requires Wired(s)
    ensures Wired(t)
  {
    hide ValidDb, N.Held, P.Next;
    var t := P.Next(c.sha, s.replay, step);
    if !IsWork(step) then s
    else if |t.sent| > |s.replay.sent| then Appended(c, s.(replay := t), t.sent[|s.replay.sent|].message)
    else s.(replay := t)
  }

  ghost function Next(c: Codec, s: System, step: Step): (t: System)
    requires Wired(s)
    ensures Wired(t)
  {
    match step
    case Ingest(messageId, requestId, data) => Appended(c, s, Original(messageId, requestId, data))
    case Normalize(normalizing, recordId, remembered) => Normalized(c, s, normalizing, recordId, remembered)
    case Work(working) => Worked(c, s, working)
  }

  const Empty: System := System(N.Empty, P.Empty, [])

  ghost function Run(c: Codec, steps: seq<Step>): (t: System)
    ensures Wired(t)
  {
    if steps == [] then Empty else Next(c, Run(c, steps[..|steps| - 1]), steps[|steps| - 1])
  }

  // ----- the parts run their own protocols -----

  lemma PThen(sha: Digest, steps: seq<P.Step>, step: P.Step) returns (longer: seq<P.Step>)
    ensures P.Run(sha, P.Empty, longer) == P.Next(sha, P.Run(sha, P.Empty, steps), step)
  {
    hide P.Next;
    longer := steps + [step];
    assert longer[..|steps|] == steps;
  }

  /** The state of the worker's part is reached by its own steps. */
  ghost predicate WorkerRuns(c: Codec, r: P.System) {
    exists steps :: r == P.Run(c.sha, P.Empty, steps)
  }

  ghost predicate NormalizerRuns(s: N.System) {
    exists steps :: s == N.Run(N.Empty, steps)
  }

  lemma WorkerRunsOn(c: Codec, r: P.System, step: P.Step)
    requires ValidDb(r.db) && WorkerRuns(c, r)
    ensures WorkerRuns(c, P.Next(c.sha, r, step))
  {
    hide P.Run, P.Next;
    var steps :| r == P.Run(c.sha, P.Empty, steps);
    var longer := PThen(c.sha, steps, step);
  }

  lemma NormalizerRunsOn(s: N.System, step: N.Step)
    requires NormalizerRuns(s)
    ensures NormalizerRuns(N.Next(s, step))
  {
    hide N.Run, N.Next;
    var steps :| s == N.Run(N.Empty, steps);
    var longer := N.Then(N.Empty, steps, step);
  }

  lemma AppendedRuns(c: Codec, s: System, m: Message)
    requires Wired(s) && WorkerRuns(c, s.replay) && NormalizerRuns(s.normalizer)
    ensures WorkerRuns(c, Appended(c, s, m).replay) && NormalizerRuns(Appended(c, s, m).normalizer)
  {
    hide WorkerRuns, NormalizerRuns, N.Next, P.Next, ValidDb, N.Held;
    NormalizerRunsOn(s.normalizer, N.Append);
    if |s.inbox| < MAX_UINT64 {
      var requestId := if REQUEST_ID_HEADER in m.headers then m.headers[REQUEST_ID_HEADER] else "";
      WorkerRunsOn(c, s.replay, P.Store(RawMessage(m.subject, |s.inbox| + 1, requestId, m.data)));
    }
  }

  lemma NormalizedRuns(c: Codec, s: System, step: N.Step, recordId: string, remembered: bool)
    requires Wired(s) && WorkerRuns(c, s.replay) && NormalizerRuns(s.normalizer)
    ensures var t := Normalized(c, s, step, recordId, remembered);
            WorkerRuns(c, t.replay) && NormalizerRuns(t.normalizer)
  {
    hide WorkerRuns, NormalizerRuns, N.Next, P.Next, ValidDb, N.Held, Letter, Fresh, Known, DlqMessageId;
    NormalizerRunsOn(s.normalizer, step);
    var t := Normalized(c, s, step, recordId, remembered);
    if t.replay != s.replay {
      DeadGrows(s.normalizer, step);
      var d := N.Next(s.normalizer, step).dead[|s.normalizer.dead|];
      WorkerRunsOn(c, s.replay, P.Arrive(Letter(c, s, d, recordId)));
    }
  }

  lemma WorkedRuns(c: Codec, s: System, step: P.Step)
    requires Wired(s) && WorkerRuns(c, s.replay) && NormalizerRuns(s.normalizer)
    ensures WorkerRuns(c, Worked(c, s, step).replay) && NormalizerRuns(Worked(c, s, step).normalizer)
  {
    hide WorkerRuns, NormalizerRuns, P.Next, ValidDb, N.Held, Appended;
    WorkerRunsOn(c, s.replay, step);
    var r := P.Next(c.sha, s.replay, step);
    if |r.sent| > |s.replay.sent| {
      AppendedRuns(c, s.(replay := r), r.sent[|s.replay.sent|].message);
    }
  }

  /**
   * In every run of the loop each part is in a state its own protocol reaches, so what is proved of
   * all runs of the normalizer and of the replay worker holds of the loop.
   */
  lemma {:induction false} PartsRun(c: Codec, steps: seq<Step>)
    ensures WorkerRuns(c, Run(c, steps).replay) && NormalizerRuns(Run(c, steps).normalizer)
  {
    hide WorkerRuns, NormalizerRuns, Normalized, Worked, Appended, Wired;
    if steps == [] {
      EmptyRuns(c);
    } else {
      var n := |steps| - 1;
      PartsRun(c, steps[..n]);
      var s := Run(c, steps[..n]);
      match steps[n] {
        case Ingest(messageId, requestId, data) => AppendedRuns(c, s, Original(messageId, requestId, data));
        case Normalize(normalizing, recordId, remembered) => NormalizedRuns(c, s, normalizing, recordId, remembered);
        case Work(working) => WorkedRuns(c, s, working);
      }
    }
  }

  lemma EmptyRuns(c: Codec)
    ensures WorkerRuns(c, Empty.replay) && NormalizerRuns(Empty.normalizer)
  {
    assert Empty.replay == P.Run(c.sha, P.Empty, []);
    assert Empty.normalizer == N.Run(N.Empty, []);
  }

  // ----- the invariant of the loop -----

  predicate NoLineage(m: Message) {
    ROOT_HEADER !in m.headers
  }

  ghost predicate IsReplay(r: P.System, m: Message) {
    exists i :: 0 <= i < |r.sent| && r.sent[i].message == m
  }

  /** The letter tells the lineage of this replay. */
  predicate Tells(c: Codec, letter: DeadLetter, x: P.Sent) {
    && letter.root == Some(x.decision.root) && letter.attempt == Some(x.reservation.attempt)
    && letter.payloadHash == c.sha(x.message.data)
  }

  ghost predicate TellsReplay(c: Codec, r: P.System, letter: DeadLetter) {
    exists i :: 0 <= i < |r.sent| && Tells(c, letter, r.sent[i])
  }

  ghost predicate InboxOk(r: P.System, inbox: seq<Message>) {
    forall i :: 0 <= i < |inbox| ==> NoLineage(inbox[i]) || IsReplay(r, inbox[i])
  }

  ghost predicate LettersOk(c: Codec, r: P.System) {
    forall i :: 0 <= i < |r.queue| ==> r.queue[i].root.None? || TellsReplay(c, r, r.queue[i])
  }

  ghost predicate RecordsDistinct(queue: seq<DeadLetter>) {
    && (forall i :: 0 <= i < |queue| ==> Trim(queue[i].recordId) == queue[i].recordId)
    && (forall i, j :: 0 <= i < j < |queue| ==> queue[i].recordId != queue[j].recordId)
  }

  ghost predicate Inv(c: Codec, s: System) {
    && Wired(s) && P.Inv(c.sha, s.replay) && InboxOk(s.replay, s.inbox) && LettersOk(c, s.replay)
    && RecordsDistinct(s.replay.queue)
  }

  /** What was said about earlier replays stays true as more are sent. */
  lemma SentGrew(c: Codec, r: P.System, t: P.System, inbox: seq<Message>)
    requires InboxOk(r, inbox) && LettersOk(c, r) && r.sent <= t.sent && r.queue == t.queue
    ensures InboxOk(t, inbox) && LettersOk(c, t)
  {
    hide Tells, NoLineage;
    forall i | 0 <= i < |inbox| && IsReplay(r, inbox[i])
      ensures IsReplay(t, inbox[i])
    {
      var j :| 0 <= j < |r.sent| && r.sent[j].message == inbox[i];
      assert t.sent[j].message == inbox[i];
    }
    forall i | 0 <= i < |r.queue| && TellsReplay(c, r, r.queue[i])
      ensures TellsReplay(c, t, r.queue[i])
    {
      var j :| 0 <= j < |r.sent| && Tells(c, r.queue[i], r.sent[j]);
      assert Tells(c, r.queue[i], t.sent[j]);
    }
  }

  lemma WorkKeepsQueue(sha: Digest, r: P.System, step: P.Step)
    requires ValidDb(r.db) && (IsWork(step) || step.Store?)
    ensures var t := P.Next(sha, r, step);
            t.queue == r.queue && r.sent <= t.sent && |t.sent| <= |r.sent| + 1
    ensures step.Store? ==> P.Next(sha, r, step).sent == r.sent
  {
    hide ValidDb, Evaluate, Handoff, Reserve, ValidRequest;
  }

  lemma AppendedKeeps(c: Codec, s: System, m: Message)
    requires Inv(c, s) && (NoLineage(m) || IsReplay(s.replay, m))
    ensures Inv(c, Appended(c, s, m))
  {
    hide ValidDb, N.Held, P.Inv, P.Next, LettersOk, RecordsDistinct, IsReplay, NoLineage;
    var t := Appended(c, s, m);
    if |s.inbox| < MAX_UINT64 {
      var requestId := if REQUEST_ID_HEADER in m.headers then m.headers[REQUEST_ID_HEADER] else "";
      var step := P.Store(RawMessage(m.subject, |s.inbox| + 1, requestId, m.data));
      P.StepKeepsInvariant(c.sha, s.replay, step);
      WorkKeepsQueue(c.sha, s.replay, step);
    }
    SentDecides(c, s.replay, t.replay);
    SentGrew(c, s.replay, t.replay, s.inbox);
  }

  lemma SentDecides(c: Codec, r: P.System, t: P.System)
    requires r.sent == t.sent
    ensures forall m :: IsReplay(r, m) <==> IsReplay(t, m)
    ensures forall letter :: TellsReplay(c, r, letter) <==> TellsReplay(c, t, letter)
  {
  }

  lemma WorkedKeeps(c: Codec, s: System, step: P.Step)
    requires Inv(c, s)
    ensures Inv(c, Worked(c, s, step))
  {
    hide ValidDb, N.Held, P.Inv, P.Next, InboxOk, LettersOk, RecordsDistinct, Appended;
    if IsWork(step) {
      var r := P.Next(c.sha, s.replay, step);
      P.StepKeepsInvariant(c.sha, s.replay, step);
      WorkKeepsQueue(c.sha, s.replay, step);
      SentGrew(c, s.replay, r, s.inbox);
      if |r.sent| > |s.replay.sent| {
        assert IsReplay(r, r.sent[|s.replay.sent|].message);
        AppendedKeeps(c, s.(replay := r), r.sent[|s.replay.sent|].message);
      }
    }
  }

  /** A dead letter is a first failure, or tells the replay whose message failed. */
  lemma LetterTells(c: Codec, s: System, d: N.DeadLetter, recordId: string)
    requires Inv(c, s) && d.index < |s.inbox|
    ensures var letter := Letter(c, s, d, recordId);
            letter.recordId == recordId && (letter.root.None? || TellsReplay(c, s.replay, letter))
  {
    hide P.Inv, LettersOk, RecordsDistinct, N.Held, ValidDb;
    var m := s.inbox[d.index];
    if !NoLineage(m) {
      assert IsReplay(s.replay, m);
      var i :| 0 <= i < |s.replay.sent| && s.replay.sent[i].message == m;
      SentTells(c, s, d, recordId, i);
    }
  }

  lemma SentTells(c: Codec, s: System, d: N.DeadLetter, recordId: string, i: nat)
    requires P.Inv(c.sha, s.replay) && d.index < |s.inbox| && i < |s.replay.sent|
    requires s.inbox[d.index] == s.replay.sent[i].message
    ensures Tells(c, Letter(c, s, d, recordId), s.replay.sent[i])
  {
    hide P.Inv, Evaluate, FromMessage, P.Charged;
    var x := s.replay.sent[i];
    P.SentOf(c.sha, s.replay, i);
    EligibleIff(s.replay.queue[x.index], x.decision.maxAttempts);
    LineagePreserved(c.sha, x.source, x.decision, x.reservation,
      if d.index < MAX_UINT64 then Some(d.index + 1) else None, recordId, c.envelopeId(x.message.data),
      d.state.retryable);
  }

  lemma ArriveKeeps(c: Codec, s: System, letter: DeadLetter)
    requires Inv(c, s) && Fresh(s.replay.queue, letter.recordId)
    requires letter.root.None? || TellsReplay(c, s.replay, letter)
    ensures Inv(c, s.(replay := P.Next(c.sha, s.replay, P.Arrive(letter))))
  {
    hide ValidDb, N.Held, P.Inv, TellsReplay, IsReplay, NoLineage, Trim;
    P.StepKeepsInvariant(c.sha, s.replay, P.Arrive(letter));
    SentDecides(c, s.replay, P.Next(c.sha, s.replay, P.Arrive(letter)));
  }

  lemma NormalizedKeeps(c: Codec, s: System, step: N.Step, recordId: string, remembered: bool)
    requires Inv(c, s)
    ensures Inv(c, Normalized(c, s, step, recordId, remembered))
  {
    hide ValidDb, N.Held, N.Next, P.Inv, P.Next, InboxOk, LettersOk, RecordsDistinct, Letter, Fresh, Known,
      DlqMessageId;
    var t := N.Next(s.normalizer, step);
    N.StepKeepsHeld(s.normalizer, step);
    if !step.Append? {
      DeadGrows(s.normalizer, step);
      if |t.dead| > |s.normalizer.dead| && Fresh(s.replay.queue, recordId) {
        var d := t.dead[|s.normalizer.dead|];
        LetterTells(c, s, d, recordId);
        ArriveKeeps(c, s, Letter(c, s, d, recordId));
      }
    }
  }

  lemma EmptyIsInvariant(c: Codec)
    ensures Inv(c, Empty)
  {
    P.EmptyIsInvariant(c.sha);
  }

  lemma {:induction false} RunKeepsInvariant(c: Codec, steps: seq<Step>)
    ensures Inv(c, Run(c, steps))
  {
    hide Inv, Normalized, Worked, Appended, Wired;
    if steps == [] {
      EmptyIsInvariant(c);
    } else {
      var n := |steps| - 1;
      RunKeepsInvariant(c, steps[..n]);
      var s := Run(c, steps[..n]);
      match steps[n] {
        case Ingest(messageId, requestId, data) => AppendedKeeps(c, s, Original(messageId, requestId, data));
        case Normalize(normalizing, recordId, remembered) => NormalizedKeeps(c, s, normalizing, recordId, remembered);
        case Work(working) => WorkedKeeps(c, s, working);
      }
    }
  }

  // ----- the dead letters of one root -----

  /** The lifecycle a letter belongs to, eligible or not. */
  function RootOf(letter: DeadLetter): string {
    Trim(if letter.root.Some? then letter.root.value else letter.recordId)
  }

  ghost function LettersOf(queue: seq<DeadLetter>, root: string): set<nat> {
    set i: nat | i < |queue| && RootOf(queue[i]) == root
  }

  ghost function IdsOf(queue: seq<DeadLetter>, root: string): set<string> {
    set i | i in LettersOf(queue, root) :: DlqMessageId(queue[i])
  }

  function Consumed(db: Db, root: string): int {
    if LifecycleKey(root) in db.states then db.states[LifecycleKey(root)].consumed else 0
  }

  /** Zero for the first failure, the attempt for a failed replay. */
  function Slot(letter: DeadLetter): nat {
    if letter.root.Some? && letter.attempt.Some? then letter.attempt.value else 0
  }

  lemma ReplayOf(c: Codec, s: System, i: nat) returns (k: nat)
    requires Inv(c, s) && i < |s.replay.queue| && s.replay.queue[i].root.Some?
    ensures k < |s.replay.sent|
    ensures var letter, x := s.replay.queue[i], s.replay.sent[k];
            && Tells(c, letter, x) && RootOf(letter) == x.decision.root
            && 1 <= Slot(letter) == x.reservation.attempt <= Consumed(s.replay.db, RootOf(letter))
            && P.HeaderOf(x, MESSAGE_ID_HEADER) == Some(ReplayMessageId(RootOf(letter), Slot(letter)))
  {
    hide P.Inv, ValidDb, N.Held, InboxOk, RecordsDistinct, Evaluate, P.Charged, Handoff, Trim, LifecycleKey,
      ReplayMessageId, P.HeaderOf;
    assert TellsReplay(c, s.replay, s.replay.queue[i]);
    k :| 0 <= k < |s.replay.sent| && Tells(c, s.replay.queue[i], s.replay.sent[k]);
    var x := s.replay.sent[k];
    P.PublishedIsPaid(c.sha, s.replay, k);
    P.SentHeaders(c.sha, s.replay, x);
    EligibleRoot(c, s, k);
  }

  lemma EligibleRoot(c: Codec, s: System, k: nat)
    requires P.Inv(c.sha, s.replay) && k < |s.replay.sent|
    ensures Trim(s.replay.sent[k].decision.root) == s.replay.sent[k].decision.root
  {
    hide P.Inv, Evaluate, P.Charged;
    var x := s.replay.sent[k];
    P.SentOf(c.sha, s.replay, k);
    EligibleIff(s.replay.queue[x.index], x.decision.maxAttempts);
  }

  lemma SlotWithin(c: Codec, s: System, i: nat)
    requires Inv(c, s) && i < |s.replay.queue|
    ensures Slot(s.replay.queue[i]) <= Consumed(s.replay.db, RootOf(s.replay.queue[i]))
  {
    hide Inv, RootOf, LifecycleKey;
    if s.replay.queue[i].root.Some? {
      var k := ReplayOf(c, s, i);
    } else {
      ConsumedWithin(c, s, RootOf(s.replay.queue[i]));
    }
  }

  lemma ConsumedWithin(c: Codec, s: System, root: string)
    requires Inv(c, s)
    ensures 0 <= Consumed(s.replay.db, root)
    ensures var k := LifecycleKey(root);
            k in s.replay.db.states ==> Consumed(s.replay.db, root) <= s.replay.db.states[k].max
  {
    hide P.Inv, N.Held, InboxOk, LettersOk, RecordsDistinct, AttemptsComplete, AttemptsPaid, AttemptsDistinct,
      LifecycleKey;
    var k := LifecycleKey(root);
    assert k in s.replay.db.states ==> ValidBudget(k, s.replay.db.states[k]);
  }

  /** Within one lifecycle a slot has one identity. */
  lemma SlotDeterminesId(c: Codec, s: System, i: nat, j: nat)
    requires Inv(c, s) && i < |s.replay.queue| && j < |s.replay.queue|
    requires RootOf(s.replay.queue[i]) == RootOf(s.replay.queue[j])
    requires Slot(s.replay.queue[i]) == Slot(s.replay.queue[j])
    ensures DlqMessageId(s.replay.queue[i]) == DlqMessageId(s.replay.queue[j])
  {
    hide Inv, Consumed, RootOf;
    var x, y := s.replay.queue[i], s.replay.queue[j];
    if x.root.Some? && y.root.Some? {
      var k := ReplayOf(c, s, i);
      var l := ReplayOf(c, s, j);
      assert P.Inv(c.sha, s.replay) by {
        WorkerInvariant(c, s);
      }
      P.IdDeterminesMessage(c.sha, s.replay, k, l);
    } else if x.root.Some? {
      var k := ReplayOf(c, s, i);
    } else if y.root.Some? {
      var l := ReplayOf(c, s, j);
    } else {
      FirstsDiffer(c, s, i, j);
    }
  }

  lemma WorkerInvariant(c: Codec, s: System)
    requires Inv(c, s)
    ensures P.Inv(c.sha, s.replay)
  {
  }

  lemma FirstsDiffer(c: Codec, s: System, i: nat, j: nat)
    requires Inv(c, s) && i < |s.replay.queue| && j < |s.replay.queue|
    requires s.replay.queue[i].root.None? && s.replay.queue[j].root.None?
    requires RootOf(s.replay.queue[i]) == RootOf(s.replay.queue[j])
    ensures i == j
  {
    hide P.Inv, Wired, InboxOk, LettersOk, Trim;
  }

  ghost function IdsBelow(queue: seq<DeadLetter>, root: string, n: nat): set<string> {
    set i | i in LettersOf(queue, root) && Slot(queue[i]) < n :: DlqMessageId(queue[i])
  }

  lemma {:induction false} IdsBelowSize(c: Codec, s: System, root: string, n: nat)
    requires Inv(c, s)
    ensures |IdsBelow(s.replay.queue, root, n)| <= n
  {
    hide Inv, DlqMessageId, RootOf, Slot;
    var queue := s.replay.queue;
    if n == 0 {
      assert IdsBelow(queue, root, n) == {};
    } else {
      IdsBelowSize(c, s, root, n - 1);
      var less := IdsBelow(queue, root, n - 1);
      if i :| i in LettersOf(queue, root) && Slot(queue[i]) == n - 1 {
        forall id | id in IdsBelow(queue, root, n)
          ensures id in less + {DlqMessageId(queue[i])}
        {
          var j :| j in LettersOf(queue, root) && Slot(queue[j]) < n && DlqMessageId(queue[j]) == id;
          if Slot(queue[j]) == n - 1 {
            SlotDeterminesId(c, s, i, j);
          }
        }
        SubsetSize(IdsBelow(queue, root, n), less + {DlqMessageId(queue[i])});
      } else {
        assert IdsBelow(queue, root, n) == less;
      }
    }
  }

  /**
   * In every run of the loop, whatever is lost, redelivered or replayed, the dead letters of one
   * root carry at most one identity more than the attempts its budget has paid for.
   */
  lemma IdentitiesWithinBudget(c: Codec, steps: seq<Step>, root: string)
    ensures var s := Run(c, steps);
            var k := LifecycleKey(root);
            && |IdsOf(s.replay.queue, root)| <= Consumed(s.replay.db, root) + 1
            && (k in s.replay.db.states ==> Consumed(s.replay.db, root) <= s.replay.db.states[k].max)
  {
    hide Inv, Run, DlqMessageId, RootOf, Slot, Consumed;
    var s := Run(c, steps);
    RunKeepsInvariant(c, steps);
    ConsumedWithin(c, s, root);
    var n := Consumed(s.replay.db, root) + 1;
    forall i | i in LettersOf(s.replay.queue, root)
      ensures Slot(s.replay.queue[i]) < n
    {
      SlotWithin(c, s, i);
    }
    assert IdsOf(s.replay.queue, root) == IdsBelow(s.replay.queue, root, n);
    IdsBelowSize(c, s, root, n);
  }

  // ----- while the stream remembers -----

  ghost predicate IdsDistinct(queue: seq<DeadLetter>) {
    forall i, j :: 0 <= i < j < |queue| ==> DlqMessageId(queue[i]) != DlqMessageId(queue[j])
  }

  ghost predicate Remembered(steps: seq<Step>) {
    forall i :: 0 <= i < |steps| && steps[i].Normalize? ==> steps[i].remembered
  }

  lemma StepKeepsIdsDistinct(c: Codec, s: System, step: Step)
    requires Wired(s) && IdsDistinct(s.replay.queue) && (step.Normalize? ==> step.remembered)
    ensures IdsDistinct(Next(c, s, step).replay.queue)
  {
    hide ValidDb, N.Held, N.Next, Letter, Fresh, DlqMessageId, P.AfterLookup, P.AfterPayment, P.AfterPublish,
      P.AfterAck;
    if step.Work? && IsWork(step.working) {
      WorkKeepsQueue(c.sha, s.replay, step.working);
    } else if step.Normalize? && !step.normalizing.Append? {
      DeadGrows(s.normalizer, step.normalizing);
    }
  }

  lemma {:induction false} RunKeepsIdsDistinct(c: Codec, steps: seq<Step>)
    requires Remembered(steps)
    ensures IdsDistinct(Run(c, steps).replay.queue)
  {
    hide IdsDistinct, Next, Wired;
    if steps == [] {
      EmptyHasDistinctIds();
    } else {
      var n := |steps| - 1;
      RunKeepsIdsDistinct(c, steps[..n]);
      StepKeepsIdsDistinct(c, Run(c, steps[..n]), steps[n]);
    }
  }

  lemma EmptyHasDistinctIds()
    ensures IdsDistinct(Empty.replay.queue)
  {
  }

  lemma {:induction false} LettersCounted(queue: seq<DeadLetter>, letters: set<nat>, ids: set<string>)
    requires IdsDistinct(queue) && forall i :: i in letters ==> i < |queue| && DlqMessageId(queue[i]) in ids
    ensures |letters| <= |ids|
  {
    hide DlqMessageId;
    if letters != {} {
      var i :| i in letters;
      LettersCounted(queue, letters - {i}, ids - {DlqMessageId(queue[i])});
    }
  }

  /**
   * While the dead-letter stream remembers the identities it stored, a root has at most one dead
   * letter more than the attempts its budget has paid for: one for the first failure, one for each
   * replay that failed.
   */
  lemma LettersWithinBudget(c: Codec, steps: seq<Step>, root: string)
    requires Remembered(steps)
    ensures var s := Run(c, steps);
            var k := LifecycleKey(root);
            && |LettersOf(s.replay.queue, root)| <= Consumed(s.replay.db, root) + 1
            && (k in s.replay.db.states ==> |LettersOf(s.replay.queue, root)| <= s.replay.db.states[k].max + 1)
  {
    hide Run, DlqMessageId, RootOf, Consumed;
    var queue := Run(c, steps).replay.queue;
    RunKeepsIdsDistinct(c, steps);
    IdentitiesWithinBudget(c, steps, root);
    LettersCounted(queue, LettersOf(queue, root), IdsOf(queue, root));
  }
}
