/** The shared contract vocabulary: timestamps, identities, required text and execution modes. */
module Contracts {
  import opened Text
  import opened Wrappers

  datatype Timestamp = Timestamp(seconds: int, nanos: int)

  datatype ExecutionMode = Unspecified | Live | Replay | Test

  datatype Backend = ClickHouse | Stream

  const MIN_SECONDS := -62_135_596_800
  const MAX_SECONDS := 253_402_300_799
  const MIN_INT64 := -0x8000_0000_0000_0000
  const MAX_INT64 := 0x7FFF_FFFF_FFFF_FFFF

  predicate ValidTimestamp(t: Timestamp) {
    MIN_SECONDS <= t.seconds <= MAX_SECONDS && 0 <= t.nanos <= 999_999_999
  }

  predicate TimestampLe(a: Timestamp, b: Timestamp) {
    a.seconds < b.seconds || (a.seconds == b.seconds && a.nanos <= b.nanos)
  }

  /** Euclidean split, so an instant before the epoch still has non-negative nanoseconds. */
  function TimestampFromMillis(millis: int): (t: Timestamp) {
    Timestamp(millis / 1000, (millis % 1000) * 1_000_000)
  }

  /** The runtime's conversion back; None stands for a 64-bit overflow. */
  function MillisFromTimestamp(t: Timestamp): Option<int>
    requires 0 <= t.nanos
  {
    var scaled := t.seconds * 1000;
    var total := scaled + t.nanos / 1_000_000;
    if MIN_INT64 <= scaled <= MAX_INT64 && MIN_INT64 <= total <= MAX_INT64 then Some(total) else None
  }

  /** Splitting keeps order both ways, and every 64-bit millisecond value that scales back returns unchanged. */
  lemma MillisSplit(a: int, b: int)
    ensures TimestampLe(TimestampFromMillis(a), TimestampFromMillis(b)) <==> a <= b
    ensures 0 <= TimestampFromMillis(a).nanos <= 999_000_000
    ensures MIN_INT64 <= a - a % 1000 && a <= MAX_INT64 ==> MillisFromTimestamp(TimestampFromMillis(a)) == Some(a)
  {
    assert a == 1000 * (a / 1000) + a % 1000;
    assert b == 1000 * (b / 1000) + b % 1000;
    assert (a % 1000) * 1_000_000 / 1_000_000 == a % 1000;
  }

  predicate IsHexDigit(c: char) {
    '0' <= c <= '9' || 'a' <= c <= 'f' || 'A' <= c <= 'F'
  }

  predicate HexOrHyphenFrom(s: string, i: nat)
    decreases |s| - i
  {
    i < |s| ==>
      && (if i == 8 || i == 13 || i == 18 || i == 23 then s[i] == '-' else IsHexDigit(s[i]))
      && HexOrHyphenFrom(s, i + 1)
  }

  /** A canonical hyphenated version-7 UUID of the RFC 9562 variant. */
  predicate IsUuidV7(s: string) {
    |s| == 36 && HexOrHyphenFrom(s, 0) && s[14] == '7' && s[19] in {'8', '9', 'a', 'b', 'A', 'B'}
  }

  predicate HasText(s: string) {
    !IsBlank(s)
  }
}
