/** Octet-counted syslog framing (section 3.4.1 of RFC 6587) over one TCP connection. */
module Framing {
  import opened Decimal

  /** Octets as their values. */
  type Bytes = seq<int>

  const SPACE := 32
  const MAX_PREFIX := 20
  const MAX_UINT64: nat := 0xFFFF_FFFF_FFFF_FFFF
  const MAX_INT: nat := 0x7FFF_FFFF_FFFF_FFFF

  /** What the peer sent; reading past it ends in end-of-file, or in another error when `broken`. */
  datatype Stream = Stream(bytes: Bytes, broken: bool)

  datatype PrefixRead = Prefix(digits: Bytes, next: nat) | PrefixFailed(eof: bool)

  /** `eof` tells whether the error unwraps to end-of-file. */
  datatype FrameRead = Frame(payload: Bytes, next: nat) | FrameFailed(eof: bool)

  function PrefixAt(s: Stream, i: nat, digits: Bytes): (r: PrefixRead)
    requires i <= |s.bytes| && AllDigits(digits)
    ensures r.Prefix? ==> i < r.next <= |s.bytes| && AllDigits(r.digits)
    decreases |s.bytes| - i
  {
    if i == |s.bytes| then PrefixFailed(!s.broken)
    else if s.bytes[i] == SPACE then Prefix(digits, i + 1)
    else if !IsDigitCode(s.bytes[i]) then PrefixFailed(false)
    else if |digits| >= MAX_PREFIX then PrefixFailed(false)
    else PrefixAt(s, i + 1, digits + [s.bytes[i]])
  }

  function FrameAt(s: Stream, i: nat, limit: nat): (r: FrameRead)
    requires i <= |s.bytes|
    ensures r.Frame? ==> i < r.next <= |s.bytes|
  {
    match PrefixAt(s, i, [])
    case PrefixFailed(eof) => FrameFailed(eof)
    case Prefix(digits, start) =>
      if digits == [] then FrameFailed(false)
      else
        var length := Value(digits);
        if length > MAX_UINT64 || length == 0 || length > limit || length > MAX_INT then FrameFailed(false)
        else if start + length <= |s.bytes| then Frame(s.bytes[start..start + length], start + length)
        else FrameFailed(start == |s.bytes| && !s.broken)
  }

  class Reader {
    const stream: Stream
    var position: nat

    ghost predicate Valid()
      reads this
    {
      position <= |stream.bytes|
    }

    constructor (stream: Stream)
      ensures this.stream == stream && position == 0 && Valid()
    {
      this.stream := stream;
      position := 0;
    }

    /** The length prefix, up to and including its space. */
    method ReadPrefix() returns (r: PrefixRead)
      requires Valid()
      modifies this`position
      ensures Valid() && r == PrefixAt(stream, old(position), []) && (r.Prefix? ==> position == r.next)
    {
      var prefix: Bytes := [];
      ghost var start := position;
      while true
        invariant Valid() && AllDigits(prefix)
        invariant PrefixAt(stream, start, []) == PrefixAt(stream, position, prefix)
        decreases |stream.bytes| - position
      {
        if position == |stream.bytes| {
          return PrefixFailed(!stream.broken);
        }
        var value := stream.bytes[position];
        position := position + 1;
        if value == SPACE {
          return Prefix(prefix, position);
        }
        if value < 48 || value > 57 {
          return PrefixFailed(false);
        }
        if |prefix| >= MAX_PREFIX {
          return PrefixFailed(false);
        }
        prefix := prefix + [value];
      }
    }

    method ReadFrame(limit: nat) returns (r: FrameRead)
      requires Valid()
      modifies this`position
      ensures Valid() && r == FrameAt(stream, old(position), limit) && (r.Frame? ==> position == r.next)
    {
      hide PrefixAt, Value;
      var prefix := ReadPrefix();
      if prefix.PrefixFailed? {
        return FrameFailed(prefix.eof);
      }
      if |prefix.digits| == 0 {
        return FrameFailed(false);
      }
      var length := Value(prefix.digits);
      if length > MAX_UINT64 || length == 0 || length > limit || length > MAX_INT {
        return FrameFailed(false);
      }
      if |stream.bytes| < position + length {
        var none := position == |stream.bytes|;
        position := |stream.bytes|;
        return FrameFailed(none && !stream.broken);
      }
      var payload := stream.bytes[position..position + length];
      position := position + length;
      return Frame(payload, position);
    }
  }

  /** What durable admission answers for the k-th frame. */
  type Acceptor = (nat, Bytes) -> bool

  datatype Outcome = Outcome(admitted: seq<Bytes>, clean: bool)

  /** Frames one at a time: the next is read only after the previous was admitted. */
  function Handled(s: Stream, i: nat, k: nat, limit: nat, accept: Acceptor): Outcome
    requires i <= |s.bytes|
    decreases |s.bytes| - i
  {
    match FrameAt(s, i, limit)
    case FrameFailed(eof) => Outcome([], eof)
    case Frame(payload, next) =>
      if !accept(k, payload) then Outcome([], false)
      else
        var rest := Handled(s, next, k + 1, limit, accept);
        Outcome([payload] + rest.admitted, rest.clean)
  }

  method HandleConnection(s: Stream, limit: nat, accept: Acceptor) returns (r: Outcome)
    ensures r == Handled(s, 0, 0, limit, accept)
  {
    hide FrameAt, Handled;
    var reader := new Reader(s);
    var admitted: seq<Bytes> := [];
    assert forall rest: seq<Bytes> :: [] + rest == rest;
    while true
      invariant reader.Valid() && reader.stream == s
      invariant var rest := Handled(s, reader.position, |admitted|, limit, accept);
                Handled(s, 0, 0, limit, accept) == Outcome(admitted + rest.admitted, rest.clean)
      decreases |s.bytes| - reader.position
    {
      ghost var at := reader.position;
      var frame := reader.ReadFrame(limit);
      if frame.FrameFailed? {
        HandledStop(s, at, |admitted|, limit, accept);
        assert admitted + [] == admitted;
        return Outcome(admitted, frame.eof);
      }
      HandledStep(s, at, |admitted|, limit, accept, frame.payload, frame.next);
      if !accept(|admitted|, frame.payload) {
        assert admitted + [] == admitted;
        return Outcome(admitted, false);
      }
      ghost var rest := Handled(s, frame.next, |admitted| + 1, limit, accept);
      assert admitted + ([frame.payload] + rest.admitted) == admitted + [frame.payload] + rest.admitted;
      admitted := admitted + [frame.payload];
    }
  }

  // ----- encoding -----

  function Header(f: Bytes): Bytes {
    Codes(|f|) + [SPACE]
  }

  function Encode(f: Bytes): Bytes {
    Header(f) + f
  }

  function EncodeAll(frames: seq<Bytes>): Bytes {
    if frames == [] then [] else Encode(frames[0]) + EncodeAll(frames[1..])
  }

  predicate Fits(f: Bytes, limit: nat) {
    1 <= |f| <= limit && |f| <= MAX_INT
  }

  predicate AllFit(frames: seq<Bytes>, limit: nat) {
    forall i :: 0 <= i < |frames| ==> Fits(frames[i], limit)
  }

  /** The rest of the stream from `i` begins like `b`, or is cut short inside it. */
  predicate Begins(s: Stream, i: nat, b: Bytes) {
    i <= |s.bytes| && forall j :: 0 <= j < |b| && i + j < |s.bytes| ==> s.bytes[i + j] == b[j]
  }

  lemma PrefixStep(s: Stream, i: nat, digits: Bytes)
    requires i < |s.bytes| && AllDigits(digits) && IsDigitCode(s.bytes[i]) && |digits| < MAX_PREFIX
    ensures PrefixAt(s, i, digits) == PrefixAt(s, i + 1, digits + [s.bytes[i]])
  {
  }

  /** A header is read whole, or fails with end-of-file where the stream was cut. */
  lemma {:induction false} HeaderReads(s: Stream, i: nat, digits: Bytes, codes: Bytes)
    requires AllDigits(digits) && AllDigits(codes) && |digits| + |codes| <= MAX_PREFIX && Begins(s, i, codes + [SPACE])
    ensures PrefixAt(s, i, digits) ==
            if i + |codes| < |s.bytes| then Prefix(digits + codes, i + |codes| + 1) else PrefixFailed(!s.broken)
    decreases |codes|
  {
    var whole := codes + [SPACE];
    assert i < |s.bytes| ==> s.bytes[i + 0] == whole[0];
    if codes == [] {
      assert digits + codes == digits;
    } else if i < |s.bytes| {
      assert s.bytes[i] == codes[0];
      PrefixStep(s, i, digits);
      forall j | 0 <= j < |codes[1..] + [SPACE]| && i + 1 + j < |s.bytes|
        ensures s.bytes[i + 1 + j] == (codes[1..] + [SPACE])[j]
      {
        assert s.bytes[i + (j + 1)] == whole[j + 1];
      }
      HeaderReads(s, i + 1, digits + [codes[0]], codes[1..]);
      assert digits + [codes[0]] + codes[1..] == digits + codes;
    }
  }

  lemma PowersOfTen()
    ensures Pow10(20) == 100_000_000_000_000_000_000
  {
    assert Pow10(5) == 100_000;
    assert Pow10(10) == 10_000_000_000;
    assert Pow10(15) == 1_000_000_000_000_000;
  }

  lemma CodesFit(n: nat)
    requires n <= MAX_INT
    ensures |Codes(n)| <= MAX_PREFIX
  {
    PowersOfTen();
    CodesLength(n, 20);
  }

  lemma BeginsParts(s: Stream, i: nat, a: Bytes, b: Bytes)
    requires Begins(s, i, a + b)
    ensures Begins(s, i, a)
    ensures i + |a| <= |s.bytes| ==> Begins(s, i + |a|, b)
  {
    forall j | 0 <= j < |a| && i + j < |s.bytes|
      ensures s.bytes[i + j] == a[j]
    {
      assert s.bytes[i + j] == (a + b)[j];
    }
    if i + |a| <= |s.bytes| {
      forall j | 0 <= j < |b| && i + |a| + j < |s.bytes|
        ensures s.bytes[i + |a| + j] == b[j]
      {
        assert s.bytes[i + (|a| + j)] == (a + b)[|a| + j];
      }
    }
  }

  /** A frame is read whole, or fails: with end-of-file exactly when the cut left no payload octet. */
  lemma FrameReads(s: Stream, i: nat, f: Bytes, limit: nat)
    requires Fits(f, limit) && Begins(s, i, Encode(f))
    ensures FrameAt(s, i, limit) ==
            if i + |Encode(f)| <= |s.bytes| then Frame(f, i + |Encode(f)|)
            else FrameFailed(!s.broken && |s.bytes| <= i + |Header(f)|)
  {
    hide Begins, PrefixAt, FrameAt, Codes, Value;
    var codes, start := Codes(|f|), i + |Header(f)|;
    CodesFit(|f|);
    ValueOfCodes(|f|);
    BeginsParts(s, i, Header(f), f);
    HeaderReads(s, i, [], codes);
    assert [] + codes == codes;
    if start <= |s.bytes| {
      PayloadReads(s, i, limit, codes, start);
      if start + |f| <= |s.bytes| {
        PayloadIs(s, start, f);
      }
    } else {
      HeaderFails(s, i, limit);
    }
  }

  lemma PayloadReads(s: Stream, i: nat, limit: nat, digits: Bytes, start: nat)
    requires i <= |s.bytes| && AllDigits(digits) && digits != [] && PrefixAt(s, i, []) == Prefix(digits, start)
    requires 1 <= Value(digits) <= limit && Value(digits) <= MAX_INT
    ensures FrameAt(s, i, limit) ==
            if start + Value(digits) <= |s.bytes| then Frame(s.bytes[start..start + Value(digits)],
              start + Value(digits))
            else FrameFailed(start == |s.bytes| && !s.broken)
  {
    hide PrefixAt, Value;
  }

  lemma HeaderFails(s: Stream, i: nat, limit: nat)
    requires i <= |s.bytes| && PrefixAt(s, i, []) == PrefixFailed(!s.broken)
    ensures FrameAt(s, i, limit) == FrameFailed(!s.broken)
  {
    hide PrefixAt;
  }

  lemma PayloadIs(s: Stream, start: nat, f: Bytes)
    requires Begins(s, start, f) && start + |f| <= |s.bytes|
    ensures s.bytes[start..start + |f|] == f
  {
  }

  // ----- whole streams -----

  /** Frames whose encodings fit whole into the first `n` octets. */
  function Complete(frames: seq<Bytes>, n: nat): (k: nat)
    ensures k <= |frames|
  {
    if frames == [] || |Encode(frames[0])| > n then 0 else 1 + Complete(frames[1..], n - |Encode(frames[0])|)
  }

  /** Octets left after the complete frames. */
  function Leftover(frames: seq<Bytes>, n: nat): nat {
    if frames == [] || |Encode(frames[0])| > n then n else Leftover(frames[1..], n - |Encode(frames[0])|)
  }

  /** Frames admitted before the first refusal. */
  function Admitted(frames: seq<Bytes>, k: nat, accept: Acceptor): (n: nat)
    ensures n <= |frames|
  {
    if frames == [] || !accept(k, frames[0]) then 0 else 1 + Admitted(frames[1..], k + 1, accept)
  }

  /** Whether the connection ends without an error after `n` octets of the frames' encoding. */
  predicate EndsClean(frames: seq<Bytes>, n: nat, broken: bool, k: nat, accept: Acceptor) {
    var whole := Complete(frames, n);
    && !broken && Admitted(frames[..whole], k, accept) == whole
    && (whole < |frames| ==> Leftover(frames, n) <= |Header(frames[whole])|)
  }

  /** What a connection does with the first `n` octets of the frames' encoding. */
  function Expected(frames: seq<Bytes>, n: nat, broken: bool, k: nat, accept: Acceptor): Outcome {
    var whole := frames[..Complete(frames, n)];
    Outcome(whole[..Admitted(whole, k, accept)], EndsClean(frames, n, broken, k, accept))
  }

  lemma ExpectedStops(frames: seq<Bytes>, n: nat, broken: bool, k: nat, accept: Acceptor)
    requires frames != [] && |Encode(frames[0])| > n
    ensures Expected(frames, n, broken, k, accept) == Outcome([], !broken && n <= |Header(frames[0])|)
  {
    StoppedHere(frames, n, broken, k, accept);
    hide EndsClean, Complete, Encode, Header;
  }

  lemma ExpectedGoesOn(frames: seq<Bytes>, n: nat, broken: bool, k: nat, accept: Acceptor)
    requires frames != [] && |Encode(frames[0])| <= n
    ensures var rest := Expected(frames[1..], n - |Encode(frames[0])|, broken, k + 1, accept);
            Expected(frames, n, broken, k, accept) ==
            if !accept(k, frames[0]) then Outcome([], false) else Outcome([frames[0]] + rest.admitted, rest.clean)
  {
    PeeledClean(frames, n, broken, k, accept);
    PeeledAdmitted(frames, n, k, accept);
    hide EndsClean, Complete, Admitted, Encode;
  }

  lemma EncodingParts(s: Stream, i: nat, frames: seq<Bytes>, limit: nat)
    requires frames != [] && AllFit(frames, limit) && Begins(s, i, EncodeAll(frames))
      && |s.bytes| - i <= |EncodeAll(frames)|
    ensures i <= |s.bytes| && Fits(frames[0], limit) && AllFit(frames[1..], limit) && Begins(s, i, Encode(frames[0]))
    ensures var next := i + |Encode(frames[0])|;
            next <= |s.bytes| ==>
              Begins(s, next, EncodeAll(frames[1..])) && |s.bytes| - next <= |EncodeAll(frames[1..])|
  {
    assert i <= |s.bytes|;
    hide Encode, Begins;
    BeginsParts(s, i, Encode(frames[0]), EncodeAll(frames[1..]));
  }

  lemma {:induction false} StreamReads(s: Stream, i: nat, k: nat, frames: seq<Bytes>, limit: nat, accept: Acceptor)
    requires AllFit(frames, limit) && Begins(s, i, EncodeAll(frames)) && |s.bytes| - i <= |EncodeAll(frames)|
    ensures Handled(s, i, k, limit, accept) == Expected(frames, |s.bytes| - i, s.broken, k, accept)
    decreases |frames|
  {
    var n := |s.bytes| - i;
    hide *;
    if frames == [] {
      NothingReads(s, i, k, limit, accept);
    } else {
      var f := frames[0];
      EncodingParts(s, i, frames, limit);
      FrameReads(s, i, f, limit);
      if |Encode(f)| <= n {
        StreamReads(s, i + |Encode(f)|, k + 1, frames[1..], limit, accept);
        ExpectedGoesOn(frames, n, s.broken, k, accept);
        HandledStep(s, i, k, limit, accept, f, i + |Encode(f)|);
      } else {
        ExpectedStops(frames, n, s.broken, k, accept);
        HandledStop(s, i, k, limit, accept);
      }
    }
  }

  lemma NothingReads(s: Stream, i: nat, k: nat, limit: nat, accept: Acceptor)
    requires Begins(s, i, EncodeAll([])) && |s.bytes| - i <= |EncodeAll([])|
    ensures Handled(s, i, k, limit, accept) == Expected([], |s.bytes| - i, s.broken, k, accept)
  {
    assert FrameAt(s, i, limit) == FrameFailed(!s.broken);
    hide FrameAt;
  }

  lemma HandledStop(s: Stream, i: nat, k: nat, limit: nat, accept: Acceptor)
    requires i <= |s.bytes| && FrameAt(s, i, limit).FrameFailed?
    ensures Handled(s, i, k, limit, accept) == Outcome([], FrameAt(s, i, limit).eof)
  {
  }

  lemma HandledStep(s: Stream, i: nat, k: nat, limit: nat, accept: Acceptor, f: Bytes, next: nat)
    requires i <= next <= |s.bytes| && FrameAt(s, i, limit) == Frame(f, next)
    ensures Handled(s, i, k, limit, accept) ==
            if !accept(k, f) then Outcome([], false)
            else Outcome([f] + Handled(s, next, k + 1, limit, accept).admitted,
              Handled(s, next, k + 1, limit, accept).clean)
  {
  }

  lemma StoppedHere(frames: seq<Bytes>, n: nat, broken: bool, k: nat, accept: Acceptor)
    requires frames != [] && |Encode(frames[0])| > n
    ensures Complete(frames, n) == 0 && (EndsClean(frames, n, broken, k, accept) <==>
      !broken && n <= |Header(frames[0])|)
  {
    assert frames[..0] == [];
  }

  lemma PeeledClean(frames: seq<Bytes>, n: nat, broken: bool, k: nat, accept: Acceptor)
    requires frames != [] && |Encode(frames[0])| <= n
    ensures EndsClean(frames, n, broken, k, accept) <==>
            accept(k, frames[0]) && EndsClean(frames[1..], n - |Encode(frames[0])|, broken, k + 1, accept)
  {
    Peeled(frames, n);
    hide Encode, Header;
    var rest, m := frames[1..], n - |Encode(frames[0])|;
    var whole := frames[..Complete(frames, n)];
    assert whole[0] == frames[0] && whole[1..] == rest[..Complete(rest, m)];
    if Complete(rest, m) < |rest| {
      assert frames[Complete(frames, n)] == rest[Complete(rest, m)];
    }
  }

  lemma PeeledAdmitted(frames: seq<Bytes>, n: nat, k: nat, accept: Acceptor)
    requires frames != [] && |Encode(frames[0])| <= n
    ensures var rest := frames[1..];
            var whole, tail := frames[..Complete(frames, n)], rest[..Complete(rest, n - |Encode(frames[0])|)];
            whole[..Admitted(whole, k, accept)] ==
            if accept(k, frames[0]) then [frames[0]] + tail[..Admitted(tail, k + 1, accept)] else []
  {
    Peeled(frames, n);
    hide Encode;
    var rest := frames[1..];
    var whole, tail := frames[..Complete(frames, n)], rest[..Complete(rest, n - |Encode(frames[0])|)];
    assert whole == [frames[0]] + tail && whole[1..] == tail;
  }

  lemma Peeled(frames: seq<Bytes>, n: nat)
    requires frames != [] && |Encode(frames[0])| <= n
    ensures Complete(frames, n) == 1 + Complete(frames[1..], n - |Encode(frames[0])|)
    ensures Leftover(frames, n) == Leftover(frames[1..], n - |Encode(frames[0])|)
  {
  }

  /**
   * A stream cut after any octet, with any refusals: the admitted frames are the leading complete
   * ones up to the first refusal; the close counts as clean exactly when nothing was refused, the
   * stream ended in end-of-file, and the cut left no payload octet of an unfinished frame.
   */
  lemma TruncatedStream(frames: seq<Bytes>, n: nat, broken: bool, limit: nat, accept: Acceptor)
    requires AllFit(frames, limit) && n <= |EncodeAll(frames)|
    ensures var whole := frames[..Complete(frames, n)];
            Handled(Stream(EncodeAll(frames)[..n], broken), 0, 0, limit, accept)
            == Outcome(whole[..Admitted(whole, 0, accept)], EndsClean(frames, n, broken, 0, accept))
  {
    StreamReads(Stream(EncodeAll(frames)[..n], broken), 0, 0, frames, limit, accept);
    hide Handled, EncodeAll, EndsClean, Complete, Admitted;
  }

  lemma {:induction false} CompleteOfAll(frames: seq<Bytes>)
    ensures Complete(frames, |EncodeAll(frames)|) == |frames|
  {
    if frames != [] {
      CompleteOfAll(frames[1..]);
    }
  }

  lemma {:induction false} AllAdmitted(frames: seq<Bytes>, k: nat, accept: Acceptor)
    requires forall j, f :: accept(j, f)
    ensures Admitted(frames, k, accept) == |frames|
  {
    if frames != [] {
      AllAdmitted(frames[1..], k + 1, accept);
    }
  }

  /** Round trip: a whole stream of frames within the limit is admitted frame for frame. */
  lemma StreamRoundTrip(frames: seq<Bytes>, limit: nat, accept: Acceptor)
    requires AllFit(frames, limit) && forall j, f :: accept(j, f)
    ensures Handled(Stream(EncodeAll(frames), false), 0, 0, limit, accept) == Outcome(frames, true)
  {
    var n := |EncodeAll(frames)|;
    assert EncodeAll(frames)[..n] == EncodeAll(frames);
    TruncatedStream(frames, n, false, limit, accept);
    CompleteOfAll(frames);
    assert frames[..|frames|] == frames;
    AllAdmitted(frames, 0, accept);
  }

  /** On any octets at all, refusals only shorten what is admitted: it stays an in-order prefix. */
  lemma {:induction false} AdmittedIsPrefix(s: Stream, i: nat, k: nat, limit: nat, accept: Acceptor, all: Acceptor)
    requires i <= |s.bytes| && forall j, f :: all(j, f)
    ensures Handled(s, i, k, limit, accept).admitted <= Handled(s, i, k, limit, all).admitted
    decreases |s.bytes| - i
  {
    var r := FrameAt(s, i, limit);
    if r.Frame? {
      AdmittedIsPrefix(s, r.next, k + 1, limit, accept, all);
    }
  }

  // ----- any octets at all -----

  /** A length in any spelling of at most twenty digits, a space, and that many octets. */
  predicate IsFrame(bytes: Bytes, digits: Bytes, payload: Bytes, limit: nat) {
    && AllDigits(digits) && 1 <= |digits| <= MAX_PREFIX && Value(digits) == |payload| && Fits(payload, limit)
    && bytes == digits + [SPACE] + payload
  }

  lemma {:induction false} PrefixIs(s: Stream, i: nat, digits: Bytes) returns (codes: Bytes)
    requires i <= |s.bytes| && AllDigits(digits) && |digits| <= MAX_PREFIX && PrefixAt(s, i, digits).Prefix?
    ensures AllDigits(codes) && |digits| + |codes| <= MAX_PREFIX && i + |codes| < |s.bytes|
    ensures PrefixAt(s, i, digits) == Prefix(digits + codes, i + |codes| + 1)
    ensures s.bytes[i..i + |codes| + 1] == codes + [SPACE]
    decreases |s.bytes| - i
  {
    if s.bytes[i] == SPACE {
      codes := [];
      assert digits + codes == digits;
    } else {
      var rest := PrefixIs(s, i + 1, digits + [s.bytes[i]]);
      codes := [s.bytes[i]] + rest;
      assert digits + [s.bytes[i]] + rest == digits + codes;
      assert s.bytes[i..i + |codes| + 1] == [s.bytes[i]] + s.bytes[i + 1..i + |codes| + 1];
    }
  }

  lemma ReadIsFrame(s: Stream, i: nat, limit: nat) returns (digits: Bytes)
    requires i <= |s.bytes| && FrameAt(s, i, limit).Frame?
    ensures var r := FrameAt(s, i, limit);
            IsFrame(s.bytes[i..r.next], digits, r.payload, limit)
  {
    hide PrefixAt, Value;
    digits := PrefixIs(s, i, []);
    assert [] + digits == digits;
    var r, start := FrameAt(s, i, limit), i + |digits| + 1;
    assert s.bytes[i..r.next] == s.bytes[i..start] + s.bytes[start..r.next];
  }

  lemma FrameIsRead(s: Stream, i: nat, digits: Bytes, payload: Bytes, next: nat, limit: nat)
    requires i <= next <= |s.bytes| && IsFrame(s.bytes[i..next], digits, payload, limit)
    ensures FrameAt(s, i, limit) == Frame(payload, next)
  {
    hide PrefixAt, Value, FrameAt;
    var bytes, header, start := s.bytes[i..next], digits + [SPACE], i + |digits| + 1;
    assert |bytes| == |digits| + 1 + |payload|;
    forall j | 0 <= j < |header| && i + j < |s.bytes|
      ensures s.bytes[i + j] == header[j]
    {
      assert s.bytes[i + j] == bytes[j];
    }
    HeaderReads(s, i, [], digits);
    assert [] + digits == digits;
    PayloadReads(s, i, limit, digits, start);
    assert s.bytes[start..next] == bytes[|digits| + 1..] == payload;
  }

  /** On any octets a frame is read exactly where one is spelled, leading zeros included. */
  lemma FrameIff(s: Stream, i: nat, limit: nat, payload: Bytes, next: nat)
    requires i <= |s.bytes|
    ensures FrameAt(s, i, limit) == Frame(payload, next) <==>
            i <= next <= |s.bytes| && Spells(s.bytes[i..next], payload, limit)
  {
    hide FrameAt, IsFrame;
    if FrameAt(s, i, limit) == Frame(payload, next) {
      var digits := ReadIsFrame(s, i, limit);
    }
    if i <= next <= |s.bytes| {
      if digits :| IsFrame(s.bytes[i..next], digits, payload, limit) {
        FrameIsRead(s, i, digits, payload, next, limit);
      }
    }
  }

  /** The stream ends in a run of at most twenty digits. */
  predicate EndsInDigits(s: Stream, i: nat)
    requires i <= |s.bytes|
  {
    AllDigits(s.bytes[i..]) && |s.bytes| - i <= MAX_PREFIX
  }

  lemma {:induction false} PrefixEof(s: Stream, i: nat, digits: Bytes)
    requires i <= |s.bytes| && AllDigits(digits) && |digits| <= MAX_PREFIX
    ensures PrefixAt(s, i, digits) == PrefixFailed(true) <==>
            !s.broken && AllDigits(s.bytes[i..]) && |digits| + (|s.bytes| - i) <= MAX_PREFIX
    decreases |s.bytes| - i
  {
    if i < |s.bytes| {
      assert s.bytes[i..] == [s.bytes[i]] + s.bytes[i + 1..];
      assert s.bytes[i..][0] == s.bytes[i];
      if IsDigitCode(s.bytes[i]) && |digits| < MAX_PREFIX {
        PrefixEof(s, i + 1, digits + [s.bytes[i]]);
      }
    }
  }

  /** A header with an admissible length stands at the very end of the stream. */
  predicate EndsInHeader(s: Stream, i: nat, limit: nat, digits: Bytes)
    requires i <= |s.bytes|
  {
    && AllDigits(digits) && 1 <= |digits| <= MAX_PREFIX && s.bytes[i..] == digits + [SPACE]
    && 1 <= Value(digits) <= limit && Value(digits) <= MAX_INT
  }

  /**
   * On any octets a failure is taken for a clean close exactly when the stream ended inside a length
   * prefix, or right after the space of an admissible one.
   */
  lemma CleanCloseIff(s: Stream, i: nat, limit: nat)
    requires i <= |s.bytes|
    ensures FrameAt(s, i, limit) == FrameFailed(true) <==>
            !s.broken && (EndsInDigits(s, i) || exists digits :: EndsInHeader(s, i, limit, digits))
  {
    PrefixEof(s, i, []);
    if FrameAt(s, i, limit) == FrameFailed(true) && PrefixAt(s, i, []).Prefix? {
      var digits := PrefixIs(s, i, []);
      assert [] + digits == digits;
      assert s.bytes[i..] == s.bytes[i..i + |digits| + 1];
      assert EndsInHeader(s, i, limit, digits);
    }
    if digits :| EndsInHeader(s, i, limit, digits) {
      HeaderAtEnd(s, i, limit, digits);
    }
  }

  lemma HeaderAtEnd(s: Stream, i: nat, limit: nat, digits: Bytes)
    requires i <= |s.bytes| && EndsInHeader(s, i, limit, digits)
    ensures FrameAt(s, i, limit) == FrameFailed(!s.broken)
  {
    hide PrefixAt, Value, FrameAt;
    var header := digits + [SPACE];
    forall j | 0 <= j < |header| && i + j < |s.bytes|
      ensures s.bytes[i + j] == header[j]
    {
      assert s.bytes[i + j] == s.bytes[i..][j];
    }
    assert |s.bytes[i..]| == |digits| + 1;
    HeaderReads(s, i, [], digits);
    assert [] + digits == digits;
    PayloadReads(s, i, limit, digits, i + |digits| + 1);
  }

  function Concat(pieces: seq<Bytes>): Bytes {
    if pieces == [] then [] else pieces[0] + Concat(pieces[1..])
  }

  /** The pieces spell these frames, one for one. */
  ghost predicate Spell(pieces: seq<Bytes>, frames: seq<Bytes>, limit: nat) {
    && |pieces| == |frames|
    && forall k :: 0 <= k < |frames| ==> Spells(pieces[k], frames[k], limit)
  }

  ghost predicate Spells(piece: Bytes, frame: Bytes, limit: nat) {
    exists digits :: IsFrame(piece, digits, frame, limit)
  }

  lemma SpellCons(piece: Bytes, digits: Bytes, frame: Bytes, pieces: seq<Bytes>, frames: seq<Bytes>, limit: nat)
    requires IsFrame(piece, digits, frame, limit) && Spell(pieces, frames, limit)
    ensures Spell([piece] + pieces, [frame] + frames, limit)
  {
    hide IsFrame;
    assert Spells(piece, frame, limit);
    hide Spells;
    var p, f := [piece] + pieces, [frame] + frames;
    forall k | 0 <= k < |f|
      ensures Spells(p[k], f[k], limit)
    {
      if k > 0 {
        assert p[k] == pieces[k - 1] && f[k] == frames[k - 1];
      }
    }
  }

  /**
   * Whatever a peer sends, what a connection admits is spelled at the front of the stream, frame
   * after frame; it stops there because no frame follows or the next one was refused, and calls the
   * close clean exactly when no frame follows and the rest is a clean close.
   */
  lemma {:induction false} AnyStream(s: Stream, i: nat, k: nat, limit: nat, accept: Acceptor)
    returns (pieces: seq<Bytes>, at: nat)
    requires i <= |s.bytes|
    ensures var r := Handled(s, i, k, limit, accept);
            && i <= at <= |s.bytes| && s.bytes[i..at] == Concat(pieces) && Spell(pieces, r.admitted, limit)
            && (forall j :: 0 <= j < |r.admitted| ==> accept(k + j, r.admitted[j]))
            && match FrameAt(s, at, limit)
               case Frame(payload, _) => !accept(k + |r.admitted|, payload) && !r.clean
               case FrameFailed(eof) => r.clean == eof
    decreases |s.bytes| - i
  {
    hide FrameAt, IsFrame, Spell, Handled, Concat;
    var first := FrameAt(s, i, limit);
    pieces, at := [], i;
    if first.Frame? {
      HandledStep(s, i, k, limit, accept, first.payload, first.next);
    } else {
      HandledStop(s, i, k, limit, accept);
    }
    if first.Frame? && accept(k, first.payload) {
      var rest, end := AnyStream(s, first.next, k + 1, limit, accept);
      var digits := ReadIsFrame(s, i, limit);
      var piece, later := s.bytes[i..first.next], Handled(s, first.next, k + 1, limit, accept).admitted;
      SpellCons(piece, digits, first.payload, rest, later, limit);
      pieces, at := [piece] + rest, end;
      Joined(s.bytes, i, first.next, at, rest);
      assert forall j :: 1 <= j < |later| + 1 ==> ([first.payload] + later)[j] == later[j - 1];
    } else {
      NothingSpelled(s.bytes, i, limit);
    }
  }

  lemma Joined(bytes: Bytes, i: nat, next: nat, at: nat, rest: seq<Bytes>)
    requires i <= next <= at <= |bytes| && bytes[next..at] == Concat(rest)
    ensures bytes[i..at] == Concat([bytes[i..next]] + rest)
  {
    var pieces := [bytes[i..next]] + rest;
    assert pieces[1..] == rest;
    assert bytes[i..at] == bytes[i..next] + bytes[next..at];
  }

  lemma NothingSpelled(bytes: Bytes, i: nat, limit: nat)
    requires i <= |bytes|
    ensures bytes[i..i] == Concat([]) && Spell([], [], limit)
  {
  }
}
