/** Durable retry state of one delivery lifecycle: the reference transition and the store that refines it. */
module RetryState {
  import opened Wrappers
  import opened Contracts

  const MAX_UINT32: nat := 0xFFFF_FFFF

  type uint32 = n: nat | n <= MAX_UINT32

  const NIL_UUID := "00000000-0000-0000-0000-000000000000"

  /** A consumer and the message it keeps failing on. */
  datatype Key = Key(consumer: string, message: string)

  /** Instants are microseconds, the resolution of the durable columns. */
  datatype Failure = Failure(
    key: Key, messageId: Option<string>, occurredAt: int, budget: uint32, deliveryAttempt: int,
    errorCode: string, errorMessage: string, retryable: bool, nextRetryAt: int)

  datatype State = State(
    key: Key, messageId: Option<string>, firstFailureAt: int, lastFailureAt: int, failures: uint32, budget: uint32,
    deliveryAttempt: int, errorCode: string, errorMessage: string, retryable: bool, nextRetryAt: Option<int>)

  datatype Error = InvalidFailure | InvalidState | KeyChanged | AlreadyIsolating | MessageIdChanged | BudgetExceeded
    | StoreUnavailable

  predicate Exhausted(s: State) {
    s.failures >= s.budget
  }

  predicate IsolationRequired(s: State) {
    Exhausted(s) || !s.retryable
  }

  // ----- validators -----

  function Utf8Length(s: string): nat {
    if s == [] then 0
    else
      var n := s[0] as int;
      (if n < 0x80 then 1 else if n < 0x800 then 2 else if n < 0x1_0000 then 3 else 4) + Utf8Length(s[1..])
  }

  lemma {:induction false} Utf8Bound(s: string)
    ensures Utf8Length(s) <= 4 * |s|
  {
    if s != [] {
      Utf8Bound(s[1..]);
    }
  }

  predicate ValidKey(k: Key) {
    HasText(k.consumer) && HasText(k.message) && Utf8Length(k.message) <= 256
  }

  predicate ValidFailure(f: Failure) {
    && ValidKey(f.key) && f.messageId != Some(NIL_UUID) && f.budget != 0 && f.deliveryAttempt >= 1
    && HasText(f.errorCode) && f.occurredAt <= f.nextRetryAt
  }

  predicate ValidState(s: State) {
    && ValidKey(s.key) && s.messageId != Some(NIL_UUID)
    && s.failures != 0 && s.budget != 0 && s.failures <= s.budget && s.deliveryAttempt >= 1
    && HasText(s.errorCode) && s.firstFailureAt <= s.lastFailureAt
    && match s.nextRetryAt
       case Some(at) => !IsolationRequired(s) && s.lastFailureAt <= at
       case None => IsolationRequired(s)
  }

  // ----- reference transition -----

  function Later(a: int, b: int): int {
    if a >= b then a else b
  }

  predicate Contradicts(existing: Option<State>, f: Failure) {
    existing.Some? && existing.value.messageId.Some? && f.messageId.Some? && existing.value.messageId != f.messageId
  }

  function Checked(s: State): Result<State, Error> {
    if ValidState(s) then Ok(s) else Err(InvalidState)
  }

  function Advance(existing: Option<State>, f: Failure): Result<State, Error> {
    if !ValidFailure(f) then Err(InvalidFailure)
    else match existing
      case Some(e) =>
        if !ValidState(e) then Err(InvalidState)
        else if e.key != f.key then Err(KeyChanged)
        else if IsolationRequired(e) then Err(AlreadyIsolating)
        else if Contradicts(existing, f) then Err(MessageIdChanged)
        else
          var failures := if e.failures == MAX_UINT32 then MAX_UINT32 else e.failures + 1;
          if failures > e.budget then Err(BudgetExceeded)
          else
            var last := Later(e.lastFailureAt, f.occurredAt);
            var next := if !f.retryable || failures >= e.budget then None else Some(Later(last, f.nextRetryAt));
            Checked(State(e.key, if e.messageId.Some? then e.messageId else f.messageId, e.firstFailureAt, last,
              failures, e.budget,
                          f.deliveryAttempt, f.errorCode, f.errorMessage, f.retryable, next))
      case None =>
        Checked(State(f.key, f.messageId, f.occurredAt, f.occurredAt, 1, f.budget,
                      f.deliveryAttempt, f.errorCode, f.errorMessage, f.retryable,
                      if f.retryable && f.budget > 1 then Some(f.nextRetryAt) else None))
  }

  /** What the durable store makes of a failure: an identity that contradicts the stored one is dropped. */
  function Effective(existing: Option<State>, f: Failure): Failure {
    if ValidFailure(f) && Contradicts(existing, f) then f.(messageId := None) else f
  }

  // ----- the durable table -----

  type Table = map<Key, State>

  ghost predicate ValidTable(rows: Table) {
    forall k :: k in rows ==> rows[k].key == k && ValidState(rows[k])
  }

  function Row(rows: Table, k: Key): Option<State> {
    if k in rows then Some(rows[k]) else None
  }

  /** The row the statement inserts when the lifecycle has none. */
  function InsertedRow(f: Failure): State {
    State(f.key, f.messageId, f.occurredAt, f.occurredAt, 1, f.budget, f.deliveryAttempt, f.errorCode,
      f.errorMessage, f.retryable,
          if !f.retryable || f.budget <= 1 then None else Some(f.nextRetryAt))
  }

  /** The row its conflict clause leaves behind. */
  function UpdatedRow(state: State, f: Failure): State
    requires state.failures < state.budget
  {
    state.(
      messageId := if state.messageId.Some? then state.messageId else f.messageId,
      lastFailureAt := Later(state.lastFailureAt, f.occurredAt),
      failures := state.failures + 1, deliveryAttempt := f.deliveryAttempt,
      errorCode := f.errorCode, errorMessage := f.errorMessage, retryable := f.retryable,
      nextRetryAt := if !f.retryable || state.failures + 1 >= state.budget then None
                     else Some(Later(Later(state.lastFailureAt, f.occurredAt), f.nextRetryAt)))
  }

  /** Insert, update and refusal are the reference transition on the failure the store sees. */
  lemma UpsertAdvances(rows: Table, f: Failure)
    requires ValidTable(rows)
    ensures var e := Row(rows, f.key);
            Advance(e, Effective(e, f)) ==
            if !ValidFailure(f) then Err(InvalidFailure)
            else if e.None? then Ok(InsertedRow(f))
            else if e.value.failures < e.value.budget && e.value.retryable then Ok(UpdatedRow(e.value, f))
            else Err(AlreadyIsolating)
    ensures ValidFailure(f) ==>
              var e := Row(rows, f.key);
              && (e.None? ==> ValidState(InsertedRow(f)) && InsertedRow(f).key == f.key)
              && (e.Some? && e.value.failures < e.value.budget && e.value.retryable ==>
                    ValidState(UpdatedRow(e.value, f)) && UpdatedRow(e.value, f).key == f.key)
  {
    hide ValidKey, HasText;
  }

  lemma RecordedTable(rows: Table, f: Failure, fault: Fault)
    requires ValidTable(rows)
    ensures var stepped := Advance(Row(rows, f.key), Effective(Row(rows, f.key), f));
            Step(rows, Record(f, fault)) == if fault == Unreachable
              || stepped.Err? then rows else rows[f.key := stepped.value]
    ensures ValidTable(Step(rows, Record(f, fault)))
  {
    StepKeeps(rows, Record(f, fault), f.key);
    hide Advance, Effective, ValidTable;
  }

  /** Where a call to the store is cut off. */
  datatype Fault = NoFault | Unreachable | ReplyLost

  class PostgresStore {
    var rows: Table

    constructor ()
      ensures rows == map[] && ValidTable(rows)
    {
      rows := map[];
    }

    /** Insert, conditional update or refusal, then decoding of the returned row. */
    method RecordFailure(f: Failure, fault: Fault) returns (r: Result<State, Error>)
      requires ValidTable(rows)
      modifies this
      ensures ValidTable(rows)
      ensures rows == Step(old(rows), Record(f, fault))
      ensures var stepped := Advance(Row(old(rows), f.key), Effective(Row(old(rows), f.key), f));
              r == if stepped == Err(InvalidFailure) || fault == NoFault then stepped else Err(StoreUnavailable)
    {
      hide ValidTable, ValidFailure, ValidState, Advance, Effective, Step, InsertedRow, UpdatedRow;
      UpsertAdvances(rows, f);
      RecordedTable(rows, f, fault);
      if !ValidFailure(f) {
        return Err(InvalidFailure);
      }
      if fault == Unreachable {
        return Err(StoreUnavailable);
      }
      var returned: Option<State> := None;
      if f.key !in rows {
        returned := Some(InsertedRow(f));
        rows := rows[f.key := InsertedRow(f)];
      } else if rows[f.key].failures < rows[f.key].budget && rows[f.key].retryable {
        returned := Some(UpdatedRow(rows[f.key], f));
        rows := rows[f.key := returned.value];
      }
      if fault == ReplyLost {
        return Err(StoreUnavailable);
      }
      if returned.Some? {
        return if ValidState(returned.value) then Ok(returned.value) else Err(InvalidState);
      }
      return if IsolationRequired(rows[f.key]) then Err(AlreadyIsolating) else Err(StoreUnavailable);
    }

    method Clear(k: Key, fault: Fault) returns (r: Result<(), Error>)
      requires ValidTable(rows)
      modifies this
      ensures ValidTable(rows)
      ensures rows == Step(old(rows), ClearRow(k, fault))
      ensures r.Ok? <==> ValidKey(k) && fault == NoFault
    {
      hide ValidKey, ValidState;
      if !ValidKey(k) {
        return Err(InvalidFailure);
      }
      if fault == Unreachable {
        return Err(StoreUnavailable);
      }
      rows := rows - {k};
      return if fault == ReplyLost then Err(StoreUnavailable) else Ok(());
    }
  }

  /** The store and the reference differ on exactly one family: an active lifecycle given a contradicting identity. */
  lemma RefinesReferenceIff(rows: Table, f: Failure)
    requires ValidTable(rows)
    ensures var e := Row(rows, f.key);
            Advance(e, Effective(e, f)) == Advance(e, f)
            <==> !(ValidFailure(f) && Contradicts(e, f) && !IsolationRequired(e.value))
  {
    hide ValidKey, HasText;
    var e := Row(rows, f.key);
    if ValidFailure(f) && Contradicts(e, f) && !IsolationRequired(e.value) {
      assert Advance(e, f) == Err(MessageIdChanged);
      assert Advance(e, Effective(e, f)) != Err(MessageIdChanged);
    }
  }

  /**
   * The family is met by any two admissible failures of one message under different identities: once
   * the first is stored and still retried, the reference refuses the second and the store takes it.
   */
  lemma SecondIdentityDiffers(f: Failure, g: Failure)
    requires ValidFailure(f) && ValidFailure(g) && f.key == g.key
    requires f.messageId.Some? && g.messageId.Some? && f.messageId != g.messageId && f.retryable && f.budget > 1
    ensures var rows := Run(map[], [Record(f, NoFault)]);
            var e := Row(rows, g.key);
            && Advance(e, g) == Err(MessageIdChanged)
            && Advance(e, Effective(e, g)).Ok? && Row(Step(rows, Record(g, NoFault)), g.key) != e
  {
    hide ValidKey, HasText;
    var empty: Table := map[];
    var ops := [Record(f, NoFault)];
    var rows := Run(empty, ops);
    assert ops[..|ops| - 1] == [] && Run(empty, []) == empty;
    UpsertAdvances(empty, f);
    assert rows == map[f.key := InsertedRow(f)];
    UpsertAdvances(rows, g);
  }

  /** On a valid row a failure is refused only when it is inadmissible or isolation is already required. */
  lemma AdvanceOutcome(rows: Table, f: Failure)
    requires ValidTable(rows)
    ensures var e := Row(rows, f.key);
            var r := Advance(e, Effective(e, f));
            && (r.Err? <==> !ValidFailure(f) || (e.Some? && IsolationRequired(e.value)))
            && (r.Err? ==> r.error == if ValidFailure(f) then AlreadyIsolating else InvalidFailure)
            && (r.Ok? ==> ValidState(r.value) && r.value.key == f.key
                          && r.value.failures == (if e.Some? then e.value.failures else 0) + 1
                          && (e.Some? ==>
                            r.value.firstFailureAt == e.value.firstFailureAt && r.value.budget == e.value.budget
                                          && (e.value.messageId.Some? ==> r.value.messageId == e.value.messageId))
                          && (e.None? ==> r.value.firstFailureAt == f.occurredAt && r.value.budget == f.budget)
                          && f.occurredAt <= r.value.lastFailureAt)
  {
    hide ValidKey, HasText;
  }

  predicate IsLater(t: int, a: int, b: int) {
    a <= t && b <= t && (t == a || t == b)
  }

  /** `after` is what failure `f` makes of the lifecycle `e`: captured fields stay, the rest is the failure's own. */
  predicate Tells(after: State, e: Option<State>, f: Failure) {
    && after.key == f.key && after.retryable == f.retryable && after.deliveryAttempt == f.deliveryAttempt
    && after.errorCode == f.errorCode && after.errorMessage == f.errorMessage
    && after.failures == (if e.Some? then e.value.failures else 0) + 1
    && after.budget == (if e.Some? then e.value.budget else f.budget)
    && after.firstFailureAt == (if e.Some? then e.value.firstFailureAt else f.occurredAt)
    && after.messageId == (if e.Some? && e.value.messageId.Some? then e.value.messageId else f.messageId)
    && IsLater(after.lastFailureAt, if e.Some? then e.value.lastFailureAt else f.occurredAt, f.occurredAt)
    && (IsolationRequired(after) <==> !f.retryable || after.failures >= after.budget)
    && (after.nextRetryAt.None? <==> IsolationRequired(after))
    && (after.nextRetryAt.Some? ==> IsLater(after.nextRetryAt.value, after.lastFailureAt, f.nextRetryAt))
  }

  /**
   * An accepted failure is stored as it happened: with its own error, retryability and delivery
   * attempt, so a permanent failure asks for isolation at once, and a transient one exactly when it
   * spends the budget; otherwise the next retry is at the later of the failure and the asked time.
   */
  lemma AdvanceTells(rows: Table, f: Failure)
    requires ValidTable(rows)
    ensures var e := Row(rows, f.key);
            var r := Advance(e, Effective(e, f));
            && (r.Ok? <==> ValidFailure(f) && (e.Some? ==> !IsolationRequired(e.value)))
            && (r.Ok? ==> Tells(r.value, e, f))
  {
    hide ValidKey, HasText;
  }

  // ----- whole runs -----

  datatype Op = Record(failure: Failure, fault: Fault) | ClearRow(key: Key, fault: Fault)

  function Step(rows: Table, op: Op): Table {
    match op
    case Record(f, fault) =>
      var stepped := Advance(Row(rows, f.key), Effective(Row(rows, f.key), f));
      if fault == Unreachable || stepped.Err? then rows else rows[f.key := stepped.value]
    case ClearRow(k, fault) =>
      if !ValidKey(k) || fault == Unreachable then rows else rows - {k}
  }

  function Run(rows: Table, ops: seq<Op>): Table {
    if ops == [] then rows else Step(Run(rows, ops[..|ops| - 1]), ops[|ops| - 1])
  }

  predicate Clears(op: Op, k: Key) {
    op.ClearRow? && op.key == k && op.fault != Unreachable
  }

  /** Failures of `k` that the run made durable. */
  function Recorded(rows: Table, ops: seq<Op>, k: Key): nat {
    if ops == [] then 0
    else
      var before := Run(rows, ops[..|ops| - 1]);
      Recorded(rows, ops[..|ops| - 1], k)
      + if ops[|ops| - 1].Record? && Row(Step(before, ops[|ops| - 1]), k) != Row(before, k) then 1 else 0
  }

  lemma StepKeeps(rows: Table, op: Op, k: Key)
    requires ValidTable(rows)
    ensures ValidTable(Step(rows, op))
    ensures k in rows && !Clears(op, k) ==>
              var before, after := rows[k], Row(Step(rows, op), k);
              && after.Some? && after.value.firstFailureAt == before.firstFailureAt
              && after.value.budget == before.budget
              && after.value.failures == before.failures + (if op.Record? && after.value != before then 1 else 0)
              && (IsolationRequired(before) ==> after.value == before)
    ensures k !in rows && k in Step(rows, op) ==> op.Record? && Step(rows, op)[k].failures == 1
  {
    hide Advance, Effective, ValidFailure, ValidState, ValidKey;
    if op.Record? {
      AdvanceOutcome(rows, op.failure);
    }
  }

  /** Every run keeps every row valid. */
  lemma {:induction false} RunKeepsValid(rows: Table, ops: seq<Op>)
    requires ValidTable(rows)
    ensures ValidTable(Run(rows, ops))
  {
    if ops != [] {
      var n := |ops| - 1;
      RunKeepsValid(rows, ops[..n]);
      StepKeeps(Run(rows, ops[..n]), ops[n], Key("", ""));
    }
  }

  /**
   * While a lifecycle is not cleared its first failure time and captured budget never change, its
   * count is exactly the failures made durable, and so at most `budget` of them ever are.
   */
  lemma {:induction false} LifecycleOfRun(rows: Table, ops: seq<Op>, k: Key)
    requires ValidTable(rows) && k in rows
    requires forall i :: 0 <= i < |ops| ==> !Clears(ops[i], k)
    ensures var end := Row(Run(rows, ops), k);
            && end.Some? && ValidState(end.value)
            && end.value.firstFailureAt == rows[k].firstFailureAt && end.value.budget == rows[k].budget
            && end.value.failures == rows[k].failures + Recorded(rows, ops, k) <= rows[k].budget
            && (IsolationRequired(rows[k]) ==> end.value == rows[k])
  {
    hide Step, ValidKey, HasText;
    if ops != [] {
      var n := |ops| - 1;
      LifecycleOfRun(rows, ops[..n], k);
      RunKeepsValid(rows, ops[..n]);
      StepKeeps(Run(rows, ops[..n]), ops[n], k);
      RunKeepsValid(rows, ops);
    }
  }
}
