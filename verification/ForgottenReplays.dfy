/** What deduplication of dead letters is worth: without it one replay can fill the queue. */
module ForgottenReplays {
  import opened Wrappers
  import opened Text
  import opened Contracts
  import opened Replay
  import opened ReplayReservation
  import opened ReplayLoop
  import Decimal
  import R = RetryState
  import N = NormalizerProtocol
  import P = ReplayProtocol

  // ----- identifiers -----

  /** A numeral is its own trimming. */
  lemma NumeralTrims(n: nat)
    ensures Trim(Decimal.Text(n)) == Decimal.Text(n) && HasText(Decimal.Text(n))
  {
    var t := Decimal.Text(n);
    assert '0' <= t[0] <= '9' && '0' <= t[|t| - 1] <= '9';
  }

  // ----- a message that fails and is never terminated -----

  const TROUBLE := N.Error("CER-NORM-CLICKHOUSE-UNAVAILABLE", "", true)

  const RECORD := N.Record(0, 0, 1, 1, R.NoFault)

  function FailureAt(index: nat): R.Failure {
    R.Failure(N.KeyOf(index), None, 0, 1, 1, TROUBLE.code, TROUBLE.message, TROUBLE.retryable, 0)
  }

  lemma FailureAtValid(index: nat)
    requires index <= MAX_UINT64
    ensures R.ValidFailure(FailureAt(index))
  {
    N.StreamKeysValid(index);
    HeadIsText(TROUBLE.code);
  }

  /** Nothing in progress; the message waits and has no retry row. */
  predicate Untried(s: N.System, index: nat) {
    N.Waiting(s, index) && N.KeyOf(index) !in s.retry && index <= MAX_UINT64
  }

  function Loaded(s: N.System, index: nat): N.System {
    N.Next(N.Next(s, N.Deliver(index)), N.Load(true, Err(TROUBLE), true))
  }

  lemma LoadedFails(s: N.System, index: nat)
    requires Untried(s, index)
    ensures Loaded(s, index) == s.(task := Some(N.Task(index, N.Failing(None, TROUBLE))))
  {
    hide N.KeyOf;
  }

  lemma StoreAnswers(retry: R.Table, index: nat)
    requires R.ValidTable(retry) && N.KeyOf(index) !in retry && index <= MAX_UINT64
    ensures var f, row := FailureAt(index), R.InsertedRow(FailureAt(index));
            && R.Step(retry, R.Record(f, R.NoFault)) == retry[N.KeyOf(index) := row]
            && N.Recorded(retry, f, R.NoFault) == Ok(row) && R.IsolationRequired(row)
  {
    hide N.KeyOf, R.Advance, R.Effective, R.ValidFailure, R.ValidTable, R.ValidState;
    FailureAtValid(index);
    R.UpsertAdvances(retry, FailureAt(index));
  }

  /** A budget of one is spent at once: the failure is stored and the message isolated. */
  lemma RecordIsolates(s: N.System, index: nat)
    requires Untried(s, index) && N.Inv(s)
    ensures var row := R.InsertedRow(FailureAt(index));
            N.Next(Loaded(s, index), RECORD) ==
            s.(retry := s.retry[N.KeyOf(index) := row], task := Some(N.Task(index, N.Isolating(row))))
  {
    hide N.Inv, N.KeyOf, N.Recorded, R.Step, R.IsolationRequired, R.InsertedRow, R.ValidTable, Loaded;
    LoadedFails(s, index);
    N.RetryIsValid(s);
    StoreAnswers(s.retry, index);
    assert N.FailureOf(index, N.Failing(None, TROUBLE), RECORD) == FailureAt(index);
  }

  // ----- the same, inside the loop -----

  lemma Then(c: Codec, steps: seq<Step>, step: Step) returns (longer: seq<Step>)
    ensures Run(c, longer) == Next(c, Run(c, steps), step)
  {
    hide Next, Wired;
    longer := steps + [step];
    assert longer[..|steps|] == steps;
  }

  /** A normalizer step that publishes no dead letter leaves the rest alone. */
  lemma Quietly(c: Codec, steps: seq<Step>, step: N.Step) returns (longer: seq<Step>)
    requires var s := Run(c, steps);
             !step.Append? && N.Next(s.normalizer, step).dead == s.normalizer.dead
    ensures var s := Run(c, steps);
            Run(c, longer) == s.(normalizer := N.Next(s.normalizer, step))
  {
    hide Run, Wired, N.Next;
    longer := Then(c, steps, Normalize(step, "", false));
  }

  /** Publishing the dead letter of an isolated message puts its letter at the end of the queue. */
  lemma Loudly(c: Codec, steps: seq<Step>, index: nat, row: R.State) returns (longer: seq<Step>)
    requires var s := Run(c, steps);
             && s.normalizer.task == Some(N.Task(index, N.Isolating(row))) && Numbered(s.replay.queue)
             && index < |s.inbox|
    ensures var s, t := Run(c, steps), Run(c, longer);
            && t.normalizer == s.normalizer.(dead := s.normalizer.dead + [N.DeadLetter(index, row)],
                                             task := Some(N.Task(index, N.Terminating(row))))
            && t.replay == s.replay.(queue := s.replay.queue
                 + [Letter(c, s, N.DeadLetter(index, row), Decimal.Text(|s.replay.queue|))])
            && t.inbox == s.inbox
  {
    hide Run, Wired, Letter, Fresh;
    var s := Run(c, steps);
    NextNumberIsFresh(s.replay.queue);
    longer := Then(c, steps, Normalize(N.PublishDead(N.Confirmed), Decimal.Text(|s.replay.queue|), false));
  }

  /** Records numbered in the order of their arrival. */
  ghost predicate Numbered(queue: seq<DeadLetter>) {
    forall i :: 0 <= i < |queue| ==> queue[i].recordId == Decimal.Text(i)
  }

  lemma NextNumberIsFresh(queue: seq<DeadLetter>)
    requires Numbered(queue)
    ensures Fresh(queue, Decimal.Text(|queue|))
  {
    hide Decimal.Text, Trim;
    NumeralTrims(|queue|);
    forall i | 0 <= i < |queue|
      ensures queue[i].recordId != Decimal.Text(|queue|)
    {
      if Decimal.Text(i) == Decimal.Text(|queue|) {
        Decimal.TextInjective(i, |queue|);
      }
    }
  }

  /** The normalizer is idle with an untried message, and the loop is in order. */
  ghost predicate Poised(c: Codec, s: System, index: nat) {
    Inv(c, s) && N.Inv(s.normalizer) && Numbered(s.replay.queue) && Untried(s.normalizer, index)
  }

  lemma PoisedWired(c: Codec, s: System, index: nat)
    requires Poised(c, s, index)
    ensures index < |s.inbox| && ValidDb(s.replay.db)
  {
  }

  lemma PoisedParts(c: Codec, steps: seq<Step>)
    ensures Inv(c, Run(c, steps)) && N.Inv(Run(c, steps).normalizer)
  {
    hide Inv, N.Inv, Run, N.Run;
    RunKeepsInvariant(c, steps);
    PartsRun(c, steps);
    var n :| Run(c, steps).normalizer == N.Run(N.Empty, n);
    N.EmptyIsInvariant();
    N.RunKeepsInvariant(N.Empty, n);
  }

  /** Fail, be dead-lettered, lose the termination, and wait again: one more letter, nothing else changed. */
  lemma FailOnce(c: Codec, steps: seq<Step>, index: nat) returns (longer: seq<Step>)
    requires Poised(c, Run(c, steps), index)
    ensures Poised(c, Run(c, longer), index)
    ensures var s, t := Run(c, steps), Run(c, longer);
            var row := R.InsertedRow(FailureAt(index));
            && index < |s.inbox| && t.inbox == s.inbox
            && t.normalizer == s.normalizer.(dead := s.normalizer.dead + [N.DeadLetter(index, row)])
            && t.replay == s.replay.(queue := s.replay.queue
                 + [Letter(c, s, N.DeadLetter(index, row), Decimal.Text(|s.replay.queue|))])
  {
    hide Inv, N.Inv, Run, N.Next, Letter, Decimal.Text, N.KeyOf, R.InsertedRow, R.ValidKey;
    var s := Run(c, steps);
    var n, row := s.normalizer, R.InsertedRow(FailureAt(index));
    PoisedWired(c, s, index);
    LoadedFails(n, index);
    RecordIsolates(n, index);
    DeliverIsQuiet(n, index);
    longer := Quietly(c, steps, N.Deliver(index));
    longer := Quietly(c, longer, N.Load(true, Err(TROUBLE), true));
    longer := Quietly(c, longer, RECORD);
    LetterOnInbox(c, s, Run(c, longer), N.DeadLetter(index, row), Decimal.Text(|s.replay.queue|));
    longer := Loudly(c, longer, index, row);
    N.StreamKeysValid(index);
    var terminating := Run(c, longer).normalizer;
    InsertedKey(index);
    N.LostTerminationClears(terminating, index, row);
    TermIsQuiet(terminating, index, row);
    longer := Quietly(c, longer, N.Term(false, true));
    longer := Quietly(c, longer, N.CleanRow(R.NoFault));
    assert terminating.retry - {N.KeyOf(index)} == n.retry;
    PoisedParts(c, longer);
    LetterRecord(c, s, N.DeadLetter(index, row), Decimal.Text(|s.replay.queue|));
  }

  lemma InsertedKey(index: nat)
    ensures R.InsertedRow(FailureAt(index)).key == N.KeyOf(index)
  {
  }

  lemma LetterRecord(c: Codec, s: System, d: N.DeadLetter, recordId: string)
    requires d.index < |s.inbox|
    ensures Letter(c, s, d, recordId).recordId == recordId
  {
  }

  lemma LetterOnInbox(c: Codec, s: System, t: System, d: N.DeadLetter, recordId: string)
    requires s.inbox == t.inbox && d.index < |s.inbox|
    ensures Letter(c, s, d, recordId) == Letter(c, t, d, recordId)
  {
  }

  lemma DeliverIsQuiet(n: N.System, index: nat)
    requires Untried(n, index)
    ensures N.Next(n, N.Deliver(index)).dead == n.dead
  {
    hide N.KeyOf;
  }

  lemma TermIsQuiet(n: N.System, index: nat, row: R.State)
    requires n.task == Some(N.Task(index, N.Terminating(row)))
    ensures N.Next(n, N.Term(false, true)).dead == n.dead
  {
  }

  // ----- one replay -----

  function SourceOf(data: Payload): RawMessage {
    RawMessage(RAW_PERSISTED_SUBJECT, 1, "", data)
  }

  function FirstState(data: Payload): System {
    System(N.Empty.(size := 1), P.Empty.(raw := map[1 := SourceOf(data)]), [Original("", "", data)])
  }

  lemma FirstStep(c: Codec, data: Payload)
    requires Wired(Empty)
    ensures Next(c, Empty, Ingest("", "", data)) == FirstState(data)
  {
    hide ValidDb, N.Held;
  }

  lemma FirstUntried(data: Payload)
    ensures Untried(FirstState(data).normalizer, 0) && Numbered(FirstState(data).replay.queue)
  {
    hide N.KeyOf;
  }

  lemma EmptyRun(c: Codec)
    ensures Run(c, []) == Empty
  {
  }

  /** One raw message has been ingested, and nothing else happened. */
  lemma Ingested(c: Codec, data: Payload) returns (steps: seq<Step>)
    ensures Run(c, steps) == FirstState(data) && Poised(c, FirstState(data), 0)
  {
    hide Inv, N.Inv, Run, Next, FirstState, Untried, Numbered;
    EmptyRun(c);
    steps := Then(c, [], Ingest("", "", data));
    FirstStep(c, data);
    FirstUntried(data);
    PoisedParts(c, steps);
  }

  lemma Works(c: Codec, steps: seq<Step>, step: P.Step) returns (longer: seq<Step>)
    requires ValidDb(Run(c, steps).replay.db) && IsWork(step)
    requires P.Next(c.sha, Run(c, steps).replay, step).sent == Run(c, steps).replay.sent
    ensures var s := Run(c, steps);
            Run(c, longer) == s.(replay := P.Next(c.sha, s.replay, step))
  {
    hide Run, Wired, P.Next, ValidDb;
    longer := Then(c, steps, Work(step));
  }

  /** The letter of the first failure asks for a replay of the raw message. */
  ghost predicate AsksFor(c: Codec, letter: DeadLetter, data: Payload) {
    IsFirst(c, Evaluate(letter, 1), data)
  }

  lemma FirstLetterAsks(c: Codec, s: System, data: Payload)
    requires s.inbox == [Original("", "", data)] && IsLowerHexSha256(c.sha(data))
    ensures var row := R.InsertedRow(FailureAt(0));
            AsksFor(c, Letter(c, s, N.DeadLetter(0, row), "0"), data)
  {
    hide IsLowerHexSha256, LifecycleKey, Trim, N.KeyOf;
    ZeroIsText();
    NumeralTrims(0);
    assert Header(s.inbox[0].headers, ROOT_HEADER).None?;
    FirstFailureStartsLifecycle(c.sha, s.inbox[0], Some(1), "0", c.envelopeId(data), true, 1);
    EvaluatesMax(Letter(c, s, N.DeadLetter(0, R.InsertedRow(FailureAt(0))), "0"));
  }

  lemma ZeroIsText()
    ensures Decimal.Text(0) == "0"
  {
  }

  lemma EvaluatesMax(letter: DeadLetter)
    ensures Evaluate(letter, 1).maxAttempts == 1
  {
  }

  const FIRST: Reservation := Reservation(true, 1, 1, LifecycleKey("0"), "0")

  ghost predicate IsFirst(c: Codec, d: Decision, data: Payload) {
    d == Decision(Eligible, 1, LifecycleKey("0"), "0", "0", 1, c.sha(data))
  }

  lemma FirstFits(c: Codec, d: Decision, data: Payload)
    requires IsFirst(c, d, data)
    ensures ValidRequest(RequestOf(d)) && FitsColumns(RequestOf(d))
  {
    hide LifecycleKey, R.Utf8Length, IsBlank;
    HeadIsText("0");
    R.Utf8Bound("0");
    LifecycleKeyLength();
    R.Utf8Bound(LifecycleKey("0"));
  }

  lemma EmptyDbValid()
    ensures ValidDb(Db(map[], map[]))
  {
  }

  lemma FirstReservation(c: Codec, d: Decision, data: Payload)
    requires IsFirst(c, d, data)
    ensures var db := Db(map[], map[]);
            && ValidDb(db) && ValidRequest(RequestOf(d))
            && Reserve(db, RequestOf(d), 0) == (Charge(db, RequestOf(d), 0), Ok(FIRST))
            && Consumed(Charge(db, RequestOf(d), 0), "0") == 1
  {
    hide LifecycleKey, FitsColumns, ValidRequest, ValidDb;
    EmptyDbValid();
    FirstFits(c, d, data);
  }

  lemma LifecycleKeyLength()
    ensures |LifecycleKey("0")| <= 64
  {
  }

  /** One letter is queued, and it asks for a replay of the one raw message. */
  ghost predicate Asked(c: Codec, s: System, data: Payload) {
    && |s.replay.queue| == 1 && AsksFor(c, s.replay.queue[0], data) && s.inbox == [Original("", "", data)]
    && s.replay == P.Empty.(raw := map[1 := SourceOf(data)], queue := s.replay.queue)
  }

  /** The worker, given that letter, finds the raw message and reserves the only attempt. */
  lemma PayOnce(c: Codec, steps: seq<Step>, data: Payload) returns (longer: seq<Step>)
    requires Asked(c, Run(c, steps), data)
    ensures var s := Run(c, steps);
            var d := Evaluate(s.replay.queue[0], 1);
            Run(c, longer) == s.(replay := s.replay.(db := Charge(Db(map[], map[]), RequestOf(d), 0),
              tasks := map[0 := P.Task(0, d, P.Paid(SourceOf(data), FIRST))]))
  {
    hide Run, Evaluate, Reserve, Charge, ValidDb, ValidRequest, Consumed, LifecycleKey;
    var s := Run(c, steps);
    var d := Evaluate(s.replay.queue[0], 1);
    FirstReservation(c, d, data);
    longer := Works(c, steps, P.Deliver(0, 0, 1));
    longer := Works(c, longer, P.Look(0, true));
    longer := Works(c, longer, P.Pay(0, 0, P.Answered));
  }

  lemma PublishLogs(c: Codec, r: P.System, d: Decision, data: Payload)
    requires ValidDb(r.db) && IsFirst(c, d, data) && r.sent == []
    requires r.tasks == map[0 := P.Task(0, d, P.Paid(SourceOf(data), FIRST))]
    ensures var t := P.Next(c.sha, r, P.Publish(0, P.Confirmed));
            t.queue == r.queue && t.db == r.db && |t.sent| == 1 && t.sent[0].decision == d
  {
    hide ValidDb, Handoff, IsFirst;
    FirstHandoff(c, d, data);
  }

  lemma AppendedKeepsQueue(c: Codec, s: System, m: Message)
    requires Wired(s)
    ensures var t := Appended(c, s, m);
            && t.replay.queue == s.replay.queue && t.replay.db == s.replay.db && t.replay.sent == s.replay.sent
            && t.inbox == s.inbox + [m] && t.normalizer == N.Next(s.normalizer, N.Append)
  {
    hide ValidDb, N.Held, N.Next;
  }

  /** The paid attempt is published, and the raw stream takes the replay. */
  lemma PublishOnce(c: Codec, steps: seq<Step>, d: Decision, data: Payload) returns (longer: seq<Step>)
    requires var s := Run(c, steps);
             && IsFirst(c, d, data) && |s.inbox| == 1 && s.replay.sent == []
             && s.replay.tasks == map[0 := P.Task(0, d, P.Paid(SourceOf(data), FIRST))]
    ensures var s, t := Run(c, steps), Run(c, longer);
            && t.replay.queue == s.replay.queue && t.replay.db == s.replay.db
            && |t.replay.sent| == 1 && |t.inbox| == 2
            && t.inbox[1] == t.replay.sent[0].message && t.replay.sent[0].decision == d
            && t.normalizer == N.Next(s.normalizer, N.Append)
  {
    hide Run, N.Next, P.Next, IsFirst, Appended, ValidDb, N.Held;
    var s := Run(c, steps);
    PublishLogs(c, s.replay, d, data);
    longer := Then(c, steps, Work(P.Publish(0, P.Confirmed)));
    var r := P.Next(c.sha, s.replay, P.Publish(0, P.Confirmed));
    AppendedKeepsQueue(c, s.(replay := r), r.sent[0].message);
  }

  lemma ReplayOnce(c: Codec, steps: seq<Step>, data: Payload) returns (longer: seq<Step>)
    requires Asked(c, Run(c, steps), data)
    ensures var s, t := Run(c, steps), Run(c, longer);
            && t.replay.queue == s.replay.queue && |t.replay.sent| == 1 && |t.inbox| == 2
            && t.inbox[1] == t.replay.sent[0].message && t.replay.sent[0].decision.root == "0"
            && Consumed(t.replay.db, "0") == 1 && t.normalizer == N.Next(s.normalizer, N.Append)
  {
    hide Run, Evaluate, Reserve, Charge, ValidDb, ValidRequest, Consumed, LifecycleKey, N.Next;
    var d := Evaluate(Run(c, steps).replay.queue[0], 1);
    FirstReservation(c, d, data);
    longer := PayOnce(c, steps, data);
    longer := PublishOnce(c, longer, d, data);
  }

  lemma FirstHandoff(c: Codec, d: Decision, data: Payload)
    requires IsFirst(c, d, data)
    ensures Handoff(c.sha, SourceOf(data), d, FIRST).Some?
  {
    hide LifecycleKey, Headers;
  }

  // ----- its failures fill the queue -----

  lemma LettersGrow(queue: seq<DeadLetter>, letter: DeadLetter, root: string)
    requires RootOf(letter) == root
    ensures |LettersOf(queue + [letter], root)| == |LettersOf(queue, root)| + 1
  {
    hide RootOf;
    var before, after := LettersOf(queue, root), LettersOf(queue + [letter], root);
    forall i: nat
      ensures i in after <==> i in before + {|queue|}
    {
      if i < |queue| {
        assert (queue + [letter])[i] == queue[i];
      }
    }
    assert after == before + {|queue|};
  }

  /** The message at `index` is the first replay. */
  ghost predicate Replayed(c: Codec, s: System, index: nat, root: string) {
    && Poised(c, s, index) && index < |s.inbox| && |s.replay.sent| == 1
    && s.inbox[index] == s.replay.sent[0].message && s.replay.sent[0].decision.root == root
  }

  lemma ReplayFails(c: Codec, steps: seq<Step>, index: nat, root: string) returns (longer: seq<Step>)
    requires Replayed(c, Run(c, steps), index, root)
    ensures var s, t := Run(c, steps), Run(c, longer);
            && Replayed(c, t, index, root) && t.replay.db == s.replay.db
            && |LettersOf(t.replay.queue, root)| == |LettersOf(s.replay.queue, root)| + 1
  {
    hide Inv, N.Inv, Run, Letter, Untried, Numbered, LettersOf, R.InsertedRow, Trim;
    var s := Run(c, steps);
    longer := FailOnce(c, steps, index);
    var d := N.DeadLetter(index, R.InsertedRow(FailureAt(index)));
    var letter := Letter(c, s, d, Decimal.Text(|s.replay.queue|));
    WorkerInvariant(c, s);
    SentTells(c, s, d, Decimal.Text(|s.replay.queue|), 0);
    EligibleRoot(c, s, 0);
    LettersGrow(s.replay.queue, letter, root);
  }

  lemma {:induction false} ReplayFailsTimes(c: Codec, steps: seq<Step>, index: nat, root: string, n: nat)
    returns (longer: seq<Step>)
    requires Replayed(c, Run(c, steps), index, root)
    ensures var s, t := Run(c, steps), Run(c, longer);
            && Replayed(c, t, index, root) && t.replay.db == s.replay.db
            && |LettersOf(t.replay.queue, root)| == |LettersOf(s.replay.queue, root)| + n
  {
    hide Replayed, Run;
    longer := steps;
    if n > 0 {
      longer := ReplayFailsTimes(c, steps, index, root, n - 1);
      longer := ReplayFails(c, longer, index, root);
    }
  }

  lemma OneReplay(c: Codec, data: Payload) returns (steps: seq<Step>)
    requires IsLowerHexSha256(c.sha(data))
    ensures Replayed(c, Run(c, steps), 1, "0") && Consumed(Run(c, steps).replay.db, "0") == 1
  {
    hide Inv, N.Inv, N.KeyOf, Run, Letter, AsksFor, IsLowerHexSha256, Consumed, N.Next, Evaluate, R.InsertedRow;
    steps := Ingested(c, data);
    ZeroIsText();
    FirstLetterAsks(c, Run(c, steps), data);
    steps := FailOnce(c, steps, 0);
    var n, queue := Run(c, steps).normalizer, Run(c, steps).replay.queue;
    steps := ReplayOnce(c, steps, data);
    PoisedParts(c, steps);
    AppendsOne(n);
  }

  lemma AppendsOne(n: N.System)
    ensures N.Next(n, N.Append) == n.(size := n.size + 1)
  {
  }

  /** If the stream forgets, one replay that keeps failing fills the queue with letters of one paid attempt. */
  lemma ForgettingIsUnbounded(c: Codec, data: Payload, n: nat) returns (steps: seq<Step>)
    requires IsLowerHexSha256(c.sha(data))
    ensures var s := Run(c, steps);
            |LettersOf(s.replay.queue, "0")| >= n && Consumed(s.replay.db, "0") == 1
  {
    hide IsLowerHexSha256, Replayed, Run, Consumed, LettersOf;
    steps := OneReplay(c, data);
    steps := ReplayFailsTimes(c, steps, 1, "0", n);
  }

  ghost predicate Bounded(c: Codec, steps: seq<Step>) {
    forall root ::
      |LettersOf(Run(c, steps).replay.queue, root)| <= Consumed(Run(c, steps).replay.db, root) + 1
  }

  /** Letters stay within consumed attempts plus one in every run exactly if stored identities are remembered. */
  lemma BoundIffRemembered(c: Codec, data: Payload, forgets: bool)
    requires IsLowerHexSha256(c.sha(data))
    ensures (forall steps :: forgets || Remembered(steps) ==> Bounded(c, steps)) <==> !forgets
  {
    hide IsLowerHexSha256, Run, Consumed, LettersOf, Remembered;
    if forgets {
      var steps := ForgettingIsUnbounded(c, data, 3);
      assert !Bounded(c, steps);
    } else {
      forall steps | Remembered(steps)
        ensures Bounded(c, steps)
      {
        forall root
          ensures |LettersOf(Run(c, steps).replay.queue, root)| <= Consumed(Run(c, steps).replay.db, root) + 1
        {
          LettersWithinBudget(c, steps, root);
        }
      }
    }
  }
}
