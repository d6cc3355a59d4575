/** Selective replay of dead letters: eligibility, the handed-off message and the lineage it carries back. */
module Replay {
  import opened Wrappers
  import opened Contracts
  import opened Text
  import opened Decimal

  const DLQ_SCHEMA := "cerbero.normalization_dlq.v1"
  const RAW_PERSISTED_SUBJECT := "cerbero.v1.raw.persisted"
  const RAW_REPLAY_SUBJECT := "cerbero.v1.raw.replay"
  const MAX_UINT32: nat := 0xFFFF_FFFF
  const MAX_UINT64: nat := 0xFFFF_FFFF_FFFF_FFFF

  const REQUEST_ID_HEADER := "Cerbero-Request-Id"
  const MESSAGE_ID_HEADER := "Nats-Msg-Id"
  const EXECUTION_MODE_HEADER := "Cerbero-Execution-Mode"
  const ROOT_HEADER := "Cerbero-Replay-Root-DLQ-Record-Id"
  const ATTEMPT_HEADER := "Cerbero-Replay-Attempt"
  const SOURCE_RECORD_HEADER := "Cerbero-Replay-Source-DLQ-Record-Id"
  const SOURCE_SEQUENCE_HEADER := "Cerbero-Replay-Source-Stream-Sequence"

  type uint32 = n: nat | n <= MAX_UINT32
  type uint64 = n: nat | n <= MAX_UINT64

  type Payload = seq<int>
  type Digest = Payload -> string

  datatype DeadLetter = DeadLetter(
    schema: string, recordId: string, messageId: Option<string>, subject: string, payloadHash: string, retryable: bool,
    sequence: Option<uint64>, root: Option<string>, attempt: Option<uint32>)

  datatype Reason = Eligible | Disabled | InvalidRecord | UnsupportedOrigin | PermanentFailure | SourceUnavailable
    | BudgetExhausted | Published

  datatype Decision = Decision(
    reason: Reason, maxAttempts: uint32, lifecycleKey: string, root: string,
    sourceId: string, sourceSequence: uint64, payloadHash: string)

  // ----- eligibility -----

  predicate LowerHexFrom(s: string, i: nat)
    decreases |s| - i
  {
    i < |s| ==> ('0' <= s[i] <= '9' || 'a' <= s[i] <= 'f') && LowerHexFrom(s, i + 1)
  }

  predicate IsLowerHexSha256(s: string) {
    |s| == 64 && LowerHexFrom(s, 0)
  }

  lemma {:induction false} LowerHexFromIff(s: string, i: nat)
    ensures LowerHexFrom(s, i) <==> forall j :: i <= j < |s| ==> '0' <= s[j] <= '9' || 'a' <= s[j] <= 'f'
    decreases |s| - i
  {
    if i < |s| {
      LowerHexFromIff(s, i + 1);
    }
  }

  /** Sixty-four lower-case hexadecimal digits, and nothing else. */
  lemma LowerHexIff(s: string)
    ensures IsLowerHexSha256(s) <==>
            |s| == 64 && forall j :: 0 <= j < |s| ==> '0' <= s[j] <= '9' || 'a' <= s[j] <= 'f'
  {
    LowerHexFromIff(s, 0);
  }

  function LifecycleKey(root: string): string {
    "normalization-replay:v1:dlq:" + root
  }

  function Evaluate(r: DeadLetter, maxAutomatic: uint32): Decision {
    var base := Decision(InvalidRecord, maxAutomatic, "", "", r.recordId, 0, "");
    if maxAutomatic == 0 then base.(reason := Disabled)
    else if r.schema != DLQ_SCHEMA || IsBlank(r.recordId) || !IsLowerHexSha256(r.payloadHash) then base
    else if r.subject != RAW_PERSISTED_SUBJECT then base.(reason := UnsupportedOrigin)
    else if r.sequence.None? || r.sequence.value == 0 then base.(reason := SourceUnavailable)
    else
      var root := Trim(if r.root.Some? then r.root.value else r.recordId);
      if r.root.Some? && root == "" then base
      else base.(reason := if r.retryable then Eligible else PermanentFailure,
                 lifecycleKey := LifecycleKey(root), root := root,
                 sourceSequence := r.sequence.value, payloadHash := r.payloadHash)
  }

  /** What eligibility means for a caller. */
  lemma EligibleIff(r: DeadLetter, max: uint32)
    ensures Evaluate(r, max).reason == Eligible <==>
            && max != 0 && r.schema == DLQ_SCHEMA && r.subject == RAW_PERSISTED_SUBJECT && r.retryable
            && HasText(r.recordId) && IsLowerHexSha256(r.payloadHash)
            && r.sequence.Some? && r.sequence.value != 0 && (r.root.Some? ==> HasText(r.root.value))
    ensures var d := Evaluate(r, max);
            d.reason == Eligible ==>
              && d.root == Trim(d.root) != "" && d.lifecycleKey == LifecycleKey(d.root) && d.maxAttempts == max
              && d.sourceId == r.recordId && Some(d.sourceSequence) == r.sequence && d.payloadHash == r.payloadHash
  {
    TrimIdempotent(if r.root.Some? then r.root.value else r.recordId);
  }

  predicate WellFormed(r: DeadLetter) {
    r.schema == DLQ_SCHEMA && HasText(r.recordId) && IsLowerHexSha256(r.payloadHash)
  }

  predicate Located(r: DeadLetter) {
    r.sequence.Some? && r.sequence.value != 0
  }

  /** Each reason exactly under its condition, so that every letter has one. */
  lemma ReasonIff(r: DeadLetter, max: uint32)
    ensures var reason := Evaluate(r, max).reason;
            && (reason == Disabled <==> max == 0)
            && (reason == UnsupportedOrigin <==> max != 0 && WellFormed(r) && r.subject != RAW_PERSISTED_SUBJECT)
            && (reason == SourceUnavailable <==>
                  max != 0 && WellFormed(r) && r.subject == RAW_PERSISTED_SUBJECT && !Located(r))
            && (reason == InvalidRecord <==>
                  && max != 0
                  && (WellFormed(r) ==>
                        r.subject == RAW_PERSISTED_SUBJECT && Located(r) && r.root.Some? && !HasText(r.root.value)))
            && (reason == PermanentFailure <==>
                  && max != 0 && WellFormed(r) && r.subject == RAW_PERSISTED_SUBJECT && Located(r) && !r.retryable
                  && (r.root.Some? ==> HasText(r.root.value)))
            && reason != BudgetExhausted && reason != Published
  {
    hide IsLowerHexSha256, Trim;
  }

  lemma LifecycleKeyInjective(a: string, b: string)
    requires LifecycleKey(a) == LifecycleKey(b)
    ensures a == b
  {
    var n := |LifecycleKey("")|;
    assert LifecycleKey(a)[n..] == a && LifecycleKey(b)[n..] == b;
  }

  // ----- the handed-off message -----

  datatype RawMessage = RawMessage(subject: string, sequence: uint64, requestId: string, data: Payload)

  datatype Reservation = Reservation(reserved: bool, attempt: uint32, maxAttempts: uint32, lifecycleKey: string,
    root: string)

  datatype Message = Message(subject: string, headers: map<string, string>, data: Payload)

  predicate ValidSource(sha: Digest, source: RawMessage, d: Decision) {
    && source.sequence == d.sourceSequence && source.subject == RAW_PERSISTED_SUBJECT
    && sha(source.data) == d.payloadHash
  }

  function ReplayMessageId(root: string, attempt: nat): string {
    "normalization-replay:v1:" + root + ":" + Decimal.Text(attempt)
  }

  /** None when a handoff check refuses. */
  method BuildMessage(sha: Digest, source: RawMessage, d: Decision, r: Reservation) returns (m: Option<Message>)
    ensures m == Handoff(sha, source, d, r)
  {
    if d.reason != Eligible || !r.reserved {
      return None;
    }
    if r.lifecycleKey != d.lifecycleKey || r.root != d.root || r.maxAttempts != d.maxAttempts {
      return None;
    }
    if r.attempt == 0 || r.attempt > r.maxAttempts || !ValidSource(sha, source, d) {
      return None;
    }
    var headers: map<string, string> := map[];
    if source.requestId != "" {
      headers := headers[REQUEST_ID_HEADER := source.requestId];
    }
    headers := headers[MESSAGE_ID_HEADER := ReplayMessageId(d.root, r.attempt)];
    headers := headers[EXECUTION_MODE_HEADER := "REPLAY"];
    headers := headers[ROOT_HEADER := d.root];
    headers := headers[ATTEMPT_HEADER := Decimal.Text(r.attempt)];
    headers := headers[SOURCE_RECORD_HEADER := d.sourceId];
    headers := headers[SOURCE_SEQUENCE_HEADER := Decimal.Text(d.sourceSequence)];
    assert headers == Headers(source, d, r.attempt);
    return Some(Message(RAW_REPLAY_SUBJECT, headers, source.data));
  }

  function Headers(source: RawMessage, d: Decision, attempt: nat): map<string, string> {
    (if source.requestId == "" then map[] else map[REQUEST_ID_HEADER := source.requestId])
    + map[MESSAGE_ID_HEADER := ReplayMessageId(d.root, attempt), EXECUTION_MODE_HEADER := "REPLAY",
      ROOT_HEADER := d.root,
          ATTEMPT_HEADER := Decimal.Text(attempt), SOURCE_RECORD_HEADER := d.sourceId,
          SOURCE_SEQUENCE_HEADER := Decimal.Text(d.sourceSequence)]
  }

  predicate Grants(r: Reservation, d: Decision) {
    r == Reservation(true, r.attempt, d.maxAttempts, d.lifecycleKey, d.root) && 1 <= r.attempt <= d.maxAttempts
  }

  function Handoff(sha: Digest, source: RawMessage, d: Decision, r: Reservation): Option<Message> {
    if d.reason == Eligible && Grants(r, d) && ValidSource(sha, source, d)
    then Some(Message(RAW_REPLAY_SUBJECT, Headers(source, d, r.attempt), source.data))
    else None
  }

  /** A message is handed off exactly for an eligible decision, its own granted reservation and the described source. */
  lemma HandoffIff(sha: Digest, source: RawMessage, d: Decision, r: Reservation)
    ensures Handoff(sha, source, d, r).Some? <==>
            && d.reason == Eligible && r.reserved && r.lifecycleKey == d.lifecycleKey && r.root == d.root
            && r.maxAttempts == d.maxAttempts && 1 <= r.attempt <= d.maxAttempts
            && source.sequence == d.sourceSequence && source.subject == RAW_PERSISTED_SUBJECT
            && sha(source.data) == d.payloadHash
  {
  }

  /** A handoff carries the raw bytes under exactly these headers, the request id only where there is one. */
  lemma HandoffHeaders(sha: Digest, source: RawMessage, d: Decision, r: Reservation)
    requires Handoff(sha, source, d, r).Some?
    ensures var m := Handoff(sha, source, d, r).value;
            && m.subject == RAW_REPLAY_SUBJECT && m.data == source.data
            && Header(m.headers, EXECUTION_MODE_HEADER) == Some("REPLAY")
            && Header(m.headers, REQUEST_ID_HEADER) == NonEmpty(Some(source.requestId))
            && Header(m.headers, MESSAGE_ID_HEADER) == Some(ReplayMessageId(d.root, r.attempt))
            && Header(m.headers, ROOT_HEADER) == Some(d.root)
            && Header(m.headers, ATTEMPT_HEADER) == Some(Decimal.Text(r.attempt))
            && Header(m.headers, SOURCE_RECORD_HEADER) == Some(d.sourceId)
            && Header(m.headers, SOURCE_SEQUENCE_HEADER) == Some(Decimal.Text(d.sourceSequence))
            && m.headers.Keys <= {REQUEST_ID_HEADER, MESSAGE_ID_HEADER, EXECUTION_MODE_HEADER, ROOT_HEADER,
                                  ATTEMPT_HEADER, SOURCE_RECORD_HEADER, SOURCE_SEQUENCE_HEADER}
  {
    hide ReplayMessageId, Decimal.Text, ValidSource;
  }

  predicate ColonFree(s: string) {
    forall i :: 0 <= i < |s| ==> s[i] != ':'
  }

  /** Cutting at the last colon is unambiguous. */
  lemma LastColon(r: string, a: string, s: string, b: string)
    requires ColonFree(a) && ColonFree(b) && r + ":" + a == s + ":" + b
    ensures r == s && a == b
  {
    var x := r + ":" + a;
    assert x[|r|] == ':' && forall i :: |r| < i < |x| ==> x[i] == a[i - |r| - 1];
    assert x[|s|] == ':' && forall i :: |s| < i < |x| ==> x[i] == b[i - |s| - 1];
    assert |r| == |s|;
    assert x[..|r|] == r && x[..|s|] == s && x[|r| + 1..] == a && x[|s| + 1..] == b;
  }

  lemma NumeralColonFree(n: nat)
    ensures ColonFree(Decimal.Text(n))
  {
    var t := Decimal.Text(n);
    forall i | 0 <= i < |t|
      ensures t[i] != ':'
    {
      assert '0' <= t[i] <= '9';
    }
  }

  lemma {:induction false} HexColonFree(s: string, i: nat)
    requires LowerHexFrom(s, i)
    ensures forall j :: i <= j < |s| ==> s[j] != ':'
    decreases |s| - i
  {
    if i < |s| {
      HexColonFree(s, i + 1);
    }
  }

  lemma SamePrefix(p: string, x: string, y: string)
    requires p + x == p + y
    ensures x == y
  {
    assert (p + x)[|p|..] == x && (p + y)[|p|..] == y;
  }

  /** A replay message identifier determines its root and its attempt. */
  lemma ReplayMessageIdInjective(r: string, a: nat, s: string, b: nat)
    requires ReplayMessageId(r, a) == ReplayMessageId(s, b)
    ensures r == s && a == b
  {
    var p := "normalization-replay:v1:";
    NumeralColonFree(a);
    NumeralColonFree(b);
    LastColon(p + r, Decimal.Text(a), p + s, Decimal.Text(b));
    SamePrefix(p, r, s);
    TextInjective(a, b);
  }

  // ----- a failed replay re-enters the queue -----

  function Header(headers: map<string, string>, name: string): Option<string> {
    if name in headers then Some(headers[name]) else None
  }

  function NonEmpty(s: Option<string>): Option<string> {
    if s == Some("") then None else s
  }

  /** A positive decimal header; a leading '+' is accepted. */
  function PositiveHeader(headers: map<string, string>, name: string, max: nat): (r: Option<nat>)
    ensures r.Some? ==> 1 <= r.value <= max
  {
    match Header(headers, name)
    case None => None
    case Some(text) =>
      match Decimal.Parse(text, max, true)
      case None => None
      case Some(n) => if n > 0 then Some(n) else None
  }

  function SourceIdentity(
      subject: string, sequence: Option<uint64>, root: Option<string>, attempt: Option<uint32>, source: Option<uint64>)
    : (string, Option<uint64>)
  {
    if subject == RAW_REPLAY_SUBJECT && root.Some? && attempt.Some? && source.Some?
    then (RAW_PERSISTED_SUBJECT, source)
    else (subject, sequence)
  }

  /** The dead letter of a message delivered at `sequence`; the record identity is fresh. */
  function FromMessage(
      sha: Digest, m: Message, sequence: Option<uint64>, recordId: string, messageId: Option<string>, retryable: bool)
    : DeadLetter {
    var root := NonEmpty(Header(m.headers, ROOT_HEADER));
    var attempt := PositiveHeader(m.headers, ATTEMPT_HEADER, MAX_UINT32);
    var source := PositiveHeader(m.headers, SOURCE_SEQUENCE_HEADER, MAX_UINT64);
    var identity := SourceIdentity(m.subject, sequence, root, attempt, source);
    DeadLetter(DLQ_SCHEMA, recordId, messageId, identity.0, sha(m.data), retryable, identity.1, root, attempt)
  }

  function DlqMessageId(r: DeadLetter): string {
    if r.root.Some? && r.attempt.Some? then
      "normalization-dlq:v1:replay:" + r.root.value + ":" + Decimal.Text(r.attempt.value) + ":" + r.payloadHash
    else if r.messageId.Some? then "normalization-dlq:v1:" + r.messageId.value + ":" + r.payloadHash
    else if r.sequence.Some? then "normalization-dlq:v1:stream:" + Decimal.Text(r.sequence.value)
    else "normalization-dlq:v1:payload:" + r.payloadHash
  }

  /**
   * The queue's deduplication identity separates the failures of one lifecycle: it is shared exactly
   * by letters with the same root, attempt and payload.
   */
  lemma DlqMessageIdOfReplays(x: DeadLetter, y: DeadLetter)
    requires x.root.Some? && x.attempt.Some? && IsLowerHexSha256(x.payloadHash)
    requires y.root.Some? && y.attempt.Some? && IsLowerHexSha256(y.payloadHash)
    ensures DlqMessageId(x) == DlqMessageId(y) <==>
      x.root == y.root && x.attempt == y.attempt && x.payloadHash == y.payloadHash
  {
    if DlqMessageId(x) == DlqMessageId(y) {
      var p := "normalization-dlq:v1:replay:";
      var a, b := Decimal.Text(x.attempt.value), Decimal.Text(y.attempt.value);
      HexColonFree(x.payloadHash, 0);
      HexColonFree(y.payloadHash, 0);
      LastColon(p + x.root.value + ":" + a, x.payloadHash, p + y.root.value + ":" + b, y.payloadHash);
      NumeralColonFree(x.attempt.value);
      NumeralColonFree(y.attempt.value);
      LastColon(p + x.root.value, a, p + y.root.value, b);
      SamePrefix(p, x.root.value, y.root.value);
      TextInjective(x.attempt.value, y.attempt.value);
    }
  }

  /** What a dead letter is about, as far as its deduplication identity tells. */
  datatype Origin =
    | Replayed(root: string, attempt: nat, hash: string)
    | Named(id: string, hash: string)
    | Positioned(sequence: nat)
    | Bytes(hash: string)

  function OriginOf(r: DeadLetter): Origin {
    match (r.root, r.attempt)
    case (Some(root), Some(attempt)) => Replayed(root, attempt, r.payloadHash)
    case _ =>
      match (r.messageId, r.sequence)
      case (Some(id), _) => Named(id, r.payloadHash)
      case (None, Some(sequence)) => Positioned(sequence)
      case (None, None) => Bytes(r.payloadHash)
  }

  /** The identity in two parts, cut at its last colon. */
  function LabelOf(o: Origin): string {
    match o
    case Replayed(root, attempt, _) => "replay:" + root + ":" + Decimal.Text(attempt)
    case Named(id, _) => id
    case Positioned(_) => "stream"
    case Bytes(_) => "payload"
  }

  function TailOf(o: Origin): string {
    match o
    case Positioned(sequence) => Decimal.Text(sequence)
    case _ => o.hash
  }

  const DLQ_PREFIX := "normalization-dlq:v1:"

  lemma DlqMessageIdParts(r: DeadLetter)
    ensures DlqMessageId(r) == DLQ_PREFIX + LabelOf(OriginOf(r)) + ":" + TailOf(OriginOf(r))
  {
    hide Decimal.Text;
    DlqPrefixes();
    match OriginOf(r) {
      case Replayed(root, attempt, hash) =>
        ReplayLabel(root, Decimal.Text(attempt), hash);
      case _ =>
    }
  }

  lemma DlqPrefixes()
    ensures "normalization-dlq:v1:replay:" == DLQ_PREFIX + "replay:"
    ensures "normalization-dlq:v1:stream:" == DLQ_PREFIX + "stream" + ":"
    ensures "normalization-dlq:v1:payload:" == DLQ_PREFIX + "payload" + ":"
  {
  }

  lemma ReplayLabel(root: string, attempt: string, hash: string)
    ensures DLQ_PREFIX + "replay:" + root + ":" + attempt + ":" + hash ==
            DLQ_PREFIX + ("replay:" + root + ":" + attempt) + ":" + hash
  {
    var p := DLQ_PREFIX;
    assert p + "replay:" + root + ":" + attempt == p + ("replay:" + root + ":" + attempt);
  }

  lemma TailColonFree(r: DeadLetter)
    requires IsLowerHexSha256(r.payloadHash)
    ensures ColonFree(TailOf(OriginOf(r)))
  {
    HexColonFree(r.payloadHash, 0);
    if r.sequence.Some? {
      NumeralColonFree(r.sequence.value);
    }
    hide IsLowerHexSha256;
  }

  /** Two letters share an identity exactly when both parts agree. */
  lemma SameIdentityIff(x: DeadLetter, y: DeadLetter)
    requires IsLowerHexSha256(x.payloadHash) && IsLowerHexSha256(y.payloadHash)
    ensures DlqMessageId(x) == DlqMessageId(y) <==>
            LabelOf(OriginOf(x)) == LabelOf(OriginOf(y)) && TailOf(OriginOf(x)) == TailOf(OriginOf(y))
  {
    hide IsLowerHexSha256, OriginOf, LabelOf, TailOf, DlqMessageId;
    DlqMessageIdParts(x);
    DlqMessageIdParts(y);
    TailColonFree(x);
    TailColonFree(y);
    if DlqMessageId(x) == DlqMessageId(y) {
      var a, b := LabelOf(OriginOf(x)), LabelOf(OriginOf(y));
      LastColon(DLQ_PREFIX + a, TailOf(OriginOf(x)), DLQ_PREFIX + b, TailOf(OriginOf(y)));
      SamePrefix(DLQ_PREFIX, a, b);
    }
  }

  /** A message id that reads like no other branch of the identity: a UUID does. */
  predicate PlainId(id: string) {
    ColonFree(id) && id != "payload"
  }

  lemma SequenceIsShort(n: uint64)
    ensures |Decimal.Text(n)| <= 20
  {
    assert Decimal.Pow10(10) == 10_000_000_000;
    assert Decimal.Pow10(20) == 100_000_000_000_000_000_000;
    Decimal.CodesLength(n, 20);
  }

  /** Equal parts come from equal origins, where message ids are plain. */
  lemma PartsDetermineOrigin(x: DeadLetter, y: DeadLetter)
    requires IsLowerHexSha256(x.payloadHash) && IsLowerHexSha256(y.payloadHash)
    requires (x.messageId.Some? ==> PlainId(x.messageId.value)) && (y.messageId.Some? ==> PlainId(y.messageId.value))
    requires LabelOf(OriginOf(x)) == LabelOf(OriginOf(y)) && TailOf(OriginOf(x)) == TailOf(OriginOf(y))
    ensures OriginOf(x) == OriginOf(y)
  {
    hide ColonFree;
    var o, p := OriginOf(x), OriginOf(y);
    LabelColons(x);
    LabelColons(y);
    match (o, p) {
      case (Replayed(r, a, _), Replayed(q, b, _)) =>
        NumeralColonFree(a);
        NumeralColonFree(b);
        LastColon("replay:" + r, Decimal.Text(a), "replay:" + q, Decimal.Text(b));
        SamePrefix("replay:", r, q);
        TextInjective(a, b);
      case (Positioned(m), Positioned(n)) =>
        TextInjective(m, n);
      case (Positioned(m), Named(_, _)) =>
        SequenceIsShort(m);
      case (Named(_, _), Positioned(n)) =>
        SequenceIsShort(n);
      case _ =>
    }
  }

  /** Only the label of a replay holds a colon, where message ids are plain. */
  lemma LabelColons(x: DeadLetter)
    requires x.messageId.Some? ==> PlainId(x.messageId.value)
    ensures ColonFree(LabelOf(OriginOf(x))) <==> !OriginOf(x).Replayed?
    ensures OriginOf(x).Named? ==> LabelOf(OriginOf(x)) != "payload"
    ensures OriginOf(x).Positioned? ==> x.sequence == Some(OriginOf(x).sequence)
  {
    if OriginOf(x).Replayed? {
      assert LabelOf(OriginOf(x))[6] == ':';
    }
  }

  /**
   * Where message ids are plain, two letters share a deduplication identity exactly when they are
   * about the same replay attempt, the same message and bytes, the same stream position, or, with
   * neither, the same bytes.
   */
  lemma DlqMessageIdIff(x: DeadLetter, y: DeadLetter)
    requires IsLowerHexSha256(x.payloadHash) && IsLowerHexSha256(y.payloadHash)
    requires (x.messageId.Some? ==> PlainId(x.messageId.value)) && (y.messageId.Some? ==> PlainId(y.messageId.value))
    ensures DlqMessageId(x) == DlqMessageId(y) <==> OriginOf(x) == OriginOf(y)
  {
    hide IsLowerHexSha256, OriginOf, LabelOf, TailOf, DlqMessageId, PlainId;
    SameIdentityIff(x, y);
    if DlqMessageId(x) == DlqMessageId(y) {
      PartsDetermineOrigin(x, y);
    }
  }

  /** A message that names itself "payload" shares the identity of its own bytes. */
  lemma PayloadIdCollides(x: DeadLetter)
    requires x.root.None? && x.messageId == Some("payload")
    ensures var y := x.(messageId := None, sequence := None);
            DlqMessageId(x) == DlqMessageId(y) && OriginOf(x) != OriginOf(y)
  {
    DlqMessageIdParts(x);
    DlqMessageIdParts(x.(messageId := None, sequence := None));
  }

  /**
   * The dead letter of a replayed message names the original raw message and the original root,
   * wherever in the stream the replay was delivered.
   */
  lemma LineagePreserved(
    sha: Digest, source: RawMessage, d: Decision, r: Reservation, sequence: Option<uint64>, recordId: string,
    messageId: Option<string>, retryable: bool)
    requires Handoff(sha, source, d, r).Some? && d.root != "" && d.sourceSequence != 0
    ensures var letter := FromMessage(sha, Handoff(sha, source, d, r).value, sequence, recordId, messageId, retryable);
            && letter.subject == RAW_PERSISTED_SUBJECT && letter.sequence == Some(d.sourceSequence)
            && letter.root == Some(d.root) && letter.attempt == Some(r.attempt) && letter.payloadHash == d.payloadHash
            && letter.recordId == recordId && letter.retryable == retryable && letter.schema == DLQ_SCHEMA
  {
    var m := Handoff(sha, source, d, r).value;
    assert Header(m.headers, ROOT_HEADER) == Some(d.root);
    assert Header(m.headers, ATTEMPT_HEADER) == Some(Decimal.Text(r.attempt));
    assert Header(m.headers, SOURCE_SEQUENCE_HEADER) == Some(Decimal.Text(d.sourceSequence));
    ParseOfText(r.attempt, MAX_UINT32, true);
    ParseOfText(d.sourceSequence, MAX_UINT64, true);
  }

  /** A dead letter names a replay's raw message exactly where the whole lineage reads; otherwise its own message. */
  lemma NamesSourceIff(
    sha: Digest, m: Message, sequence: Option<uint64>, recordId: string, messageId: Option<string>, retryable: bool)
    ensures var letter := FromMessage(sha, m, sequence, recordId, messageId, retryable);
            var source := PositiveHeader(m.headers, SOURCE_SEQUENCE_HEADER, MAX_UINT64);
            var whole := letter.root.Some? && letter.attempt.Some? && source.Some? && m.subject == RAW_REPLAY_SUBJECT;
            && letter.subject == (if whole then RAW_PERSISTED_SUBJECT else m.subject)
            && letter.sequence == (if whole then source else sequence)
            && letter.payloadHash == sha(m.data) && letter.messageId == messageId && letter.retryable == retryable
  {
  }

  /** A message that never was a replay names itself, and its dead letter starts a lifecycle of its own. */
  lemma FirstFailureStartsLifecycle(
    sha: Digest, m: Message, sequence: Option<uint64>, recordId: string, messageId: Option<string>, retryable: bool,
    max: uint32)
    requires m.subject == RAW_PERSISTED_SUBJECT && Header(m.headers, ROOT_HEADER).None?
    requires max != 0 && HasText(recordId) && sequence.Some? && sequence.value != 0 && IsLowerHexSha256(sha(m.data))
    ensures var d := Evaluate(FromMessage(sha, m, sequence, recordId, messageId, retryable), max);
            && d.root == Trim(recordId) && d.lifecycleKey == LifecycleKey(Trim(recordId))
            && d.sourceSequence == sequence.value && d.payloadHash == sha(m.data) && d.sourceId == recordId
            && (d.reason == Eligible <==> retryable)
  {
  }

  /** So a failed replay is eligible again, in its root's lifecycle and for the same raw message. */
  lemma FailedReplayStaysInLifecycle(
    sha: Digest, record: DeadLetter, max: uint32, source: RawMessage, r: Reservation,
    sequence: Option<uint64>, recordId: string, messageId: Option<string>, retryable: bool, later: uint32)
    requires Handoff(sha, source, Evaluate(record, max), r).Some? && HasText(recordId) && later != 0
    ensures var d := Evaluate(record, max);
            var letter := FromMessage(sha, Handoff(sha, source, d, r).value, sequence, recordId, messageId, retryable);
            Evaluate(letter, later) ==
            d.(reason := if retryable then Eligible else PermanentFailure, maxAttempts := later, sourceId := recordId)
  {
    var d := Evaluate(record, max);
    EligibleIff(record, max);
    LineagePreserved(sha, source, d, r, sequence, recordId, messageId, retryable);
    var letter := FromMessage(sha, Handoff(sha, source, d, r).value, sequence, recordId, messageId, retryable);
    assert Evaluate(letter.(retryable := true), later).root == Trim(d.root) == d.root;
  }
}
