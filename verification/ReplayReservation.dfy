/** The two-table reservation transaction: a captured budget and a ledger of the attempts it paid for. */
module ReplayReservation {
  import opened Wrappers
  import opened Contracts
  import opened Replay
  import Decimal
  import RetryState

  datatype Budget = Budget(
    root: string, consumed: int, max: int, firstReservedAt: Option<int>, lastReservedAt: Option<int>,
    lastSource: string, lastSequence: nat)

  datatype Attempt = Attempt(attempt: int, sequence: nat)

  /** A lifecycle and the dead letter that asked for the attempt. */
  type Entry = (string, string)

  datatype Db = Db(states: map<string, Budget>, ledger: map<Entry, Attempt>)

  datatype Request = Request(lifecycleKey: string, root: string, sourceId: string, sequence: uint64,
    maxAttempts: uint32)

  datatype Error = InvalidRequest | StoreFailure | StateConflict

  predicate ValidRequest(q: Request) {
    && HasText(q.root) && q.lifecycleKey == LifecycleKey(q.root) && HasText(q.sourceId)
    && q.sequence != 0 && q.maxAttempts != 0
  }

  function RequestOf(d: Decision): Request {
    Request(d.lifecycleKey, d.root, d.sourceId, d.sourceSequence, d.maxAttempts)
  }

  /** The column limits of the budget table. */
  predicate FitsColumns(q: Request) {
    && RetryState.Utf8Length(q.root) <= 128 && RetryState.Utf8Length(q.sourceId) <= 128
    && RetryState.Utf8Length(q.lifecycleKey) <= 256
  }

  // ----- the invariant of the two tables -----

  predicate ValidBudget(key: string, b: Budget) {
    && key == LifecycleKey(b.root) && 1 <= b.max <= MAX_UINT32 && 1 <= b.consumed <= b.max
    && b.firstReservedAt.Some? && b.lastReservedAt.Some? && b.firstReservedAt.value <= b.lastReservedAt.value
  }

  ghost predicate HasAttempt(ledger: map<Entry, Attempt>, key: string, n: int) {
    exists source :: (key, source) in ledger && ledger[(key, source)].attempt == n
  }

  ghost predicate BudgetsValid(db: Db) {
    forall k :: k in db.states ==> ValidBudget(k, db.states[k])
  }

  ghost predicate AttemptsPaid(db: Db) {
    forall e :: e in db.ledger ==> e.0 in db.states && 1 <= db.ledger[e].attempt <= db.states[e.0].consumed
  }

  ghost predicate AttemptsDistinct(ledger: map<Entry, Attempt>) {
    forall e, f :: e in ledger && f in ledger && e.0 == f.0 && ledger[e].attempt == ledger[f].attempt ==> e == f
  }

  ghost predicate AttemptsComplete(db: Db) {
    forall k, n :: k in db.states && 1 <= n <= db.states[k].consumed ==> HasAttempt(db.ledger, k, n)
  }

  /** The ledger of every lifecycle holds exactly the attempts 1..consumed, one per source record. */
  ghost predicate ValidDb(db: Db) {
    BudgetsValid(db) && AttemptsPaid(db) && AttemptsDistinct(db.ledger) && AttemptsComplete(db)
  }

  /** What a later database keeps: captured root and budget, spent attempts and every ledger entry. */
  ghost predicate Extends(a: Db, b: Db) {
    && (forall k :: k in a.states ==>
          k in b.states && b.states[k].root == a.states[k].root && b.states[k].max == a.states[k].max
          && a.states[k].consumed <= b.states[k].consumed)
    && (forall e :: e in a.ledger ==> e in b.ledger && b.ledger[e] == a.ledger[e])
  }

  // ----- the transaction's outcome -----

  function Granted(q: Request, attempt: uint32): Reservation {
    Reservation(true, attempt, q.maxAttempts, q.lifecycleKey, q.root)
  }

  /** The next attempt charged to the request's source record. */
  function Charge(db: Db, q: Request, now: int): Db {
    var b := if q.lifecycleKey in db.states then db.states[q.lifecycleKey]
             else Budget(q.root, 0, q.maxAttempts, None, None, "", 0);
    var first := if b.firstReservedAt.Some? then b.firstReservedAt else Some(now);
    Db(db.states[q.lifecycleKey := b.(consumed := b.consumed + 1, firstReservedAt := first, lastReservedAt := Some(now),
                                      lastSource := q.sourceId, lastSequence := q.sequence)],
       db.ledger[(q.lifecycleKey, q.sourceId) := Attempt(b.consumed + 1, q.sequence)])
  }

  /** One attempt per source record: repeated, refused, exhausted, or newly charged. */
  function Reserve(db: Db, q: Request, now: int): (Db, Result<Reservation, Error>)
    requires ValidDb(db)
  {
    var entry := (q.lifecycleKey, q.sourceId);
    if !ValidRequest(q) then (db, Err(InvalidRequest))
    else if !FitsColumns(q) then (db, Err(StoreFailure))
    else if q.lifecycleKey !in db.states then (Charge(db, q, now), Ok(Granted(q, 1)))
    else
      var b := db.states[q.lifecycleKey];
      if b.root != q.root || b.max != q.maxAttempts then (db, Err(StateConflict))
      else if entry in db.ledger then
        (db, if db.ledger[entry].sequence == q.sequence then Ok(Granted(q, db.ledger[entry].attempt))
          else Err(StateConflict))
      else if b.consumed == b.max then (db, Ok(Granted(q, b.consumed).(reserved := false)))
      else if now < b.firstReservedAt.value then (db, Err(StoreFailure))
      else (Charge(db, q, now), Ok(Granted(q, b.consumed + 1)))
  }

  /** The statement at which the connection is lost; `Commit` says whether the commit took effect. */
  datatype Cut = Never | Begin | Initialize | Lock | LoadLedger | Update | RecordLedger | Commit(applied: bool)

  class PostgresReplayStore {
    var db: Db

    constructor ()
      ensures db == Db(map[], map[]) && ValidDb(db)
    {
      db := Db(map[], map[]);
    }

    /** The source's statements, on the transaction's own view; only the commit publishes it. */
    method ReserveAttempt(q: Request, now: int, cut: Cut) returns (r: Result<Reservation, Error>)
      requires ValidDb(db)
      modifies this
      ensures db == old(db) || db == Reserve(old(db), q, now).0
      ensures r.Ok? ==> (db, r) == Reserve(old(db), q, now)
      ensures r == Err(StateConflict) ==> (db, r) == Reserve(old(db), q, now)
      ensures cut == Never ==> (db, r) == Reserve(old(db), q, now)
      ensures r == Reserve(old(db), q, now).1 || (cut != Never && r == Err(StoreFailure))
      ensures r.Err? && cut != Commit(true) ==> db == old(db)
    {
      hide AttemptsComplete, AttemptsDistinct, LifecycleKey, HasText, FitsColumns, Decimal.Text;
      if !ValidRequest(q) {
        return Err(InvalidRequest);
      }
      if cut == Begin {
        return Err(StoreFailure);
      }
      var tx := db;
      if cut == Initialize || !FitsColumns(q) {
        return Err(StoreFailure);
      }
      if q.lifecycleKey !in tx.states {
        tx := tx.(states := tx.states[q.lifecycleKey := Budget(q.root, 0, q.maxAttempts, None, None, q.sourceId,
          q.sequence)]);
      }
      if cut == Lock {
        return Err(StoreFailure);
      }
      var locked := tx.states[q.lifecycleKey];
      if locked.root != q.root || locked.max != q.maxAttempts {
        return Err(StateConflict);
      }
      if locked.consumed < 0 || locked.consumed > locked.max {
        return Err(StateConflict);
      }
      if cut == LoadLedger {
        return Err(StoreFailure);
      }
      var entry := (q.lifecycleKey, q.sourceId);
      if entry in tx.ledger {
        var existing := tx.ledger[entry];
        if Decimal.Text(existing.sequence) != Decimal.Text(q.sequence)
           || existing.attempt <= 0 || existing.attempt > locked.max || existing.attempt > locked.consumed {
          return Err(StateConflict);
        }
        Decimal.TextInjective(existing.sequence, q.sequence);
        return Ok(Reservation(true, existing.attempt, q.maxAttempts, q.lifecycleKey, q.root));
      }
      if locked.consumed >= locked.max {
        return Ok(Reservation(false, locked.consumed, q.maxAttempts, q.lifecycleKey, q.root));
      }
      var first := if locked.firstReservedAt.Some? then locked.firstReservedAt else Some(now);
      if cut == Update || now < first.value {
        return Err(StoreFailure);
      }
      var reserved := locked.consumed + 1;
      tx := tx.(states := tx.states[q.lifecycleKey := locked.(
        consumed := reserved, firstReservedAt := first, lastReservedAt := Some(now),
        lastSource := q.sourceId, lastSequence := q.sequence)]);
      if cut == RecordLedger {
        return Err(StoreFailure);
      }
      tx := tx.(ledger := tx.ledger[entry := Attempt(reserved, q.sequence)]);
      if cut == Commit(false) {
        return Err(StoreFailure);
      }
      assert tx.states == Charge(db, q, now).states;
      assert tx == Charge(db, q, now);
      db := tx;
      if cut == Commit(true) {
        return Err(StoreFailure);
      }
      return Ok(Reservation(true, reserved, q.maxAttempts, q.lifecycleKey, q.root));
    }
  }

  // ----- what the transaction guarantees -----

  lemma ChargeKeepsComplete(db: Db, q: Request, now: int)
    requires AttemptsComplete(db) && (q.lifecycleKey, q.sourceId) !in db.ledger
    ensures AttemptsComplete(Charge(db, q, now))
  {
    var after := Charge(db, q, now);
    hide AttemptsComplete;
    forall k, n | k in after.states && 1 <= n <= after.states[k].consumed
      ensures HasAttempt(after.ledger, k, n)
    {
      if k == q.lifecycleKey && n == after.states[k].consumed {
        assert after.ledger[(k, q.sourceId)].attempt == n;
      } else {
        assert HasAttempt(db.ledger, k, n) by {
          CompleteAt(db, k, n);
        }
        var source :| (k, source) in db.ledger && db.ledger[(k, source)].attempt == n;
        assert after.ledger[(k, source)].attempt == n;
      }
    }
    CompleteFrom(after);
  }

  lemma CompleteAt(db: Db, k: string, n: int)
    requires AttemptsComplete(db) && k in db.states && 1 <= n <= db.states[k].consumed
    ensures HasAttempt(db.ledger, k, n)
  {
  }

  lemma CompleteFrom(db: Db)
    requires forall k, n :: k in db.states && 1 <= n <= db.states[k].consumed ==> HasAttempt(db.ledger, k, n)
    ensures AttemptsComplete(db)
  {
  }

  lemma ChargeKeepsValid(db: Db, q: Request, now: int)
    requires ValidDb(db) && ValidRequest(q) && (q.lifecycleKey, q.sourceId) !in db.ledger
    requires q.lifecycleKey in db.states ==>
               var b := db.states[q.lifecycleKey];
               b.root == q.root && b.max == q.maxAttempts && b.consumed < b.max && b.firstReservedAt.value <= now
    ensures ValidDb(Charge(db, q, now)) && Extends(db, Charge(db, q, now))
  {
    ChargeKeepsComplete(db, q, now);
    ChargeKeepsDistinct(db, q, now);
    hide AttemptsComplete, AttemptsDistinct, LifecycleKey, HasText;
    ChargeExtends(db, q, now);
    hide Extends;
  }

  lemma ChargeExtends(db: Db, q: Request, now: int)
    requires (q.lifecycleKey, q.sourceId) !in db.ledger
    ensures Extends(db, Charge(db, q, now))
  {
  }

  lemma ChargeKeepsDistinct(db: Db, q: Request, now: int)
    requires AttemptsPaid(db) && AttemptsDistinct(db.ledger)
    ensures AttemptsDistinct(Charge(db, q, now).ledger)
  {
    var after, entry := Charge(db, q, now), (q.lifecycleKey, q.sourceId);
    forall e | e in db.ledger && e.0 == entry.0
      ensures db.ledger[e].attempt < after.ledger[entry].attempt
    {
    }
    hide AttemptsPaid;
  }

  /**
   * Every reservation keeps both tables consistent and everything already charged, and answers with
   * the ledger entry of its source record; it refuses for the budget only when the budget is spent.
   */
  lemma ReserveIsCharged(db: Db, q: Request, now: int)
    requires ValidDb(db)
    ensures var (after, r) := Reserve(db, q, now);
            && ValidDb(after) && Extends(db, after)
            && (r.Ok? && r.value.reserved ==>
                  && ValidRequest(q) && q.lifecycleKey in after.states
                  && after.states[q.lifecycleKey].root == q.root && after.states[q.lifecycleKey].max == q.maxAttempts
                  && (q.lifecycleKey, q.sourceId) in after.ledger
                  && after.ledger[(q.lifecycleKey, q.sourceId)] == Attempt(r.value.attempt, q.sequence)
                  && r.value == Granted(q, r.value.attempt) && 1 <= r.value.attempt <= q.maxAttempts)
            && (r.Ok? && !r.value.reserved ==>
                  && after == db && q.lifecycleKey in db.states && (q.lifecycleKey, q.sourceId) !in db.ledger
                  && db.states[q.lifecycleKey].consumed == db.states[q.lifecycleKey].max == q.maxAttempts)
            && (r.Err? ==> after == db)
  {
    var entry := (q.lifecycleKey, q.sourceId);
    if Reserve(db, q, now).0 != db {
      assert entry !in db.ledger;
      ChargeKeepsValid(db, q, now);
    }
  }

  /** Asking again for the same source record answers the same attempt and charges nothing. */
  lemma ReserveIsIdempotent(db: Db, q: Request, now: int, later: int)
    requires ValidDb(db) && Reserve(db, q, now).1.Ok?
    ensures ValidDb(Reserve(db, q, now).0)
    ensures Reserve(Reserve(db, q, now).0, q, later) == Reserve(db, q, now)
  {
    ReserveIsCharged(db, q, now);
  }

  // ----- exactly what is answered -----

  /** What the tables have captured contradicts the request: another root, maximum or source position. */
  predicate Conflicts(db: Db, q: Request) {
    var entry := (q.lifecycleKey, q.sourceId);
    || (q.lifecycleKey in db.states
        && (db.states[q.lifecycleKey].root != q.root || db.states[q.lifecycleKey].max != q.maxAttempts))
    || (entry in db.ledger && db.ledger[entry].sequence != q.sequence)
  }

  /** The database accepts the request and agrees with it. */
  predicate Acceptable(db: Db, q: Request) {
    ValidRequest(q) && FitsColumns(q) && !Conflicts(db, q)
  }

  /** A new attempt may be charged: the lifecycle is new, or has budget left and its clock has not run back. */
  predicate HasRoom(db: Db, q: Request, now: int) {
    q.lifecycleKey in db.states ==>
      var b := db.states[q.lifecycleKey];
      b.consumed < b.max && (b.firstReservedAt.Some? ==> b.firstReservedAt.value <= now)
  }

  function ConsumedBy(db: Db, key: string): int {
    if key in db.states then db.states[key].consumed else 0
  }

  /** An attempt is granted exactly when it was already paid for, or there is room for one more. */
  lemma GrantedIff(db: Db, q: Request, now: int)
    requires ValidDb(db)
    ensures var r := Reserve(db, q, now).1;
            var entry := (q.lifecycleKey, q.sourceId);
            && (r.Ok? && r.value.reserved <==> Acceptable(db, q) && (entry in db.ledger || HasRoom(db, q, now)))
            && (r.Ok? && r.value.reserved ==>
                  r.value.attempt == if entry in db.ledger then db.ledger[entry].attempt
                                     else ConsumedBy(db, q.lifecycleKey) + 1)
            && (r.Ok? && !r.value.reserved <==>
                  && Acceptable(db, q) && entry !in db.ledger && q.lifecycleKey in db.states
                  && db.states[q.lifecycleKey].consumed == db.states[q.lifecycleKey].max)
  {
    hide AttemptsComplete, AttemptsDistinct, LifecycleKey, HasText, FitsColumns, ValidRequest;
    RowOf(db, q.lifecycleKey);
  }

  /** Each error exactly under its condition. */
  lemma RefusedIff(db: Db, q: Request, now: int)
    requires ValidDb(db)
    ensures var r := Reserve(db, q, now).1;
            var entry := (q.lifecycleKey, q.sourceId);
            && (r == Err(InvalidRequest) <==> !ValidRequest(q))
            && (r == Err(StateConflict) <==> ValidRequest(q) && FitsColumns(q) && Conflicts(db, q))
            && (r == Err(StoreFailure) <==>
                  && ValidRequest(q)
                  && (FitsColumns(q) ==>
                        && !Conflicts(db, q) && entry !in db.ledger && !HasRoom(db, q, now)
                        && ConsumedBy(db, q.lifecycleKey) < q.maxAttempts))
  {
    hide AttemptsComplete, AttemptsDistinct, LifecycleKey, HasText, FitsColumns;
    RowOf(db, q.lifecycleKey);
  }

  lemma RowOf(db: Db, k: string)
    requires ValidDb(db)
    ensures k in db.states ==> ValidBudget(k, db.states[k])
    ensures forall source :: (k, source) in db.ledger ==>
              k in db.states && 1 <= db.ledger[(k, source)].attempt <= db.states[k].consumed
  {
  }

  /** A new grant charges one attempt to its own source record, and every other row stays as it was. */
  lemma ChargesOnlyItsOwn(db: Db, q: Request, now: int)
    requires ValidDb(db)
    ensures var (after, r) := Reserve(db, q, now);
            var k, entry := q.lifecycleKey, (q.lifecycleKey, q.sourceId);
            if r.Ok? && r.value.reserved && entry !in db.ledger then
              && after.ledger == db.ledger[entry := Attempt(ConsumedBy(db, k) + 1, q.sequence)]
              && after.states.Keys == db.states.Keys + {k} && ConsumedBy(after, k) == ConsumedBy(db, k) + 1
              && (forall other :: other in db.states && other != k ==> after.states[other] == db.states[other])
              && after.states[k].lastReservedAt == Some(now) && after.states[k].lastSource == q.sourceId
              && after.states[k].lastSequence == q.sequence
              && after.states[k].firstReservedAt == if k in db.states then db.states[k].firstReservedAt else Some(now)
            else after == db
  {
    hide AttemptsComplete, AttemptsDistinct, LifecycleKey, HasText, FitsColumns, ValidRequest;
    RowOf(db, q.lifecycleKey);
  }
}
