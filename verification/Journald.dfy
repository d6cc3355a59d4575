/** The systemd Journal Export Format: text and length-prefixed binary fields, entry by entry. */
module Journald {
  import opened Wrappers

  type byte = n: int | 0 <= n < 256
  type Bytes = seq<byte>

  const NEWLINE: byte := 10
  const EQUALS: byte := 61
  const MAX_INT: nat := 0x7FFF_FFFF_FFFF_FFFF
  const CURSOR: Bytes := [95, 95, 67, 85, 82, 83, 79, 82]

  datatype Field = Field(name: Bytes, value: Bytes)

  /** What the journal sent; reading past it ends in end-of-file, or in another error when `broken`. */
  datatype Stream = Stream(bytes: Bytes, broken: bool)

  /** `eof` tells whether an error unwraps to end-of-file, which ends an export like a clean end does. */
  datatype EntryRead = Entry(fields: seq<Field>, cursor: Bytes, next: nat) | EndOfFile | Failed(eof: bool)

  /** The library's UTF-8 check and the configured entry limit. */
  datatype Config = Config(isUtf8: Bytes -> bool, maxEntryBytes: nat)

  predicate IsNameByte(b: byte) {
    b == 95 || 65 <= b <= 90 || 48 <= b <= 57
  }

  predicate IsName(name: Bytes) {
    1 <= |name| <= 64 && forall i :: 0 <= i < |name| ==> IsNameByte(name[i])
  }

  /** Position of the first `target` from `i` on, or the end. */
  function IndexFrom(bytes: Bytes, i: nat, target: byte): (r: nat)
    requires i <= |bytes|
    ensures i <= r <= |bytes| && (r < |bytes| ==> bytes[r] == target)
    ensures forall j :: i <= j < r ==> bytes[j] != target
    decreases |bytes| - i
  {
    if i == |bytes| || bytes[i] == target then i else IndexFrom(bytes, i + 1, target)
  }

  function LittleEndian(bytes: Bytes): nat {
    if bytes == [] then 0 else bytes[0] + 256 * LittleEndian(bytes[1..])
  }

  /**
   * A binary value at `i`: eight length octets, the value, a newline. The error says whether it
   * unwraps to end-of-file.
   */
  function BinaryAt(c: Config, s: Stream, i: nat): (r: Result<(Bytes, nat), bool>)
    requires i <= |s.bytes|
    ensures r.Ok? ==> i < r.value.1 <= |s.bytes|
  {
    if |s.bytes| < i + 8 then Err(i == |s.bytes| && !s.broken)
    else
      var length := LittleEndian(s.bytes[i..i + 8]);
      var end := i + 8 + length;
      if length > c.maxEntryBytes || length > MAX_INT then Err(false)
      else if |s.bytes| < end then Err(i + 8 == |s.bytes| && !s.broken)
      else if |s.bytes| == end then Err(!s.broken)
      else if s.bytes[end] != NEWLINE then Err(false)
      else Ok((s.bytes[i + 8..end], end + 1))
  }

  function NewCursor(c: Config, f: Field, cursor: Bytes): Bytes {
    if f.name == CURSOR && c.isUtf8(f.value) then f.value else cursor
  }

  /** The field a non-blank line begins; a line without an equals sign names a binary value that follows it. */
  function FieldAt(c: Config, s: Stream, line: Bytes, next: nat): (r: Result<(Field, nat), bool>)
    requires next <= |s.bytes|
    ensures r.Ok? ==> next <= r.value.1 <= |s.bytes|
  {
    var split := IndexFrom(line, 0, EQUALS);
    var name := line[..split];
    if !IsName(name) then Err(false)
    else if split < |line| then Ok((Field(name, line[split + 1..]), next))
    else match BinaryAt(c, s, next)
      case Err(eof) => Err(eof)
      case Ok((value, after)) => Ok((Field(name, value), after))
  }

  /** Where reading is, and what the entry holds so far. */
  datatype Progress = Progress(at: nat, fields: seq<Field>, cursor: Bytes, total: nat)

  datatype LineRead = Done(result: EntryRead) | More(progress: Progress)

  function LineAt(c: Config, s: Stream, p: Progress): (r: LineRead)
    requires p.at <= |s.bytes|
    ensures r.More? ==> p.at < r.progress.at <= |s.bytes|
    ensures r.Done? && r.result.Entry? ==>
              r.result.fields != [] && p.at <= r.result.next <= |s.bytes| && (p.fields == [] ==> p.at < r.result.next)
  {
    var end := IndexFrom(s.bytes, p.at, NEWLINE);
    var last := end == |s.bytes|;
    var next := if last then end else end + 1;
    var line := s.bytes[p.at..end];
    if last && s.broken then Done(Failed(false))
    else if last && line == [] then Done(if p.fields == [] then EndOfFile else Entry(p.fields, p.cursor, next))
    else if p.total + (next - p.at) > c.maxEntryBytes then Done(Failed(false))
    else if line == [] then
      if p.fields == [] then More(p.(at := next, total := p.total + (next - p.at)))
        else Done(Entry(p.fields, p.cursor, next))
    else match FieldAt(c, s, line, next)
      case Err(eof) => Done(Failed(eof))
      case Ok((f, after)) =>
        if p.total + (after - p.at) > c.maxEntryBytes then Done(Failed(false))
        else
          var q := Progress(after, p.fields + [f], NewCursor(c, f, p.cursor), p.total + (after - p.at));
          if last then Done(Entry(q.fields, q.cursor, after)) else More(q)
  }

  function EntryFrom(c: Config, s: Stream, p: Progress): (r: EntryRead)
    requires p.at <= |s.bytes|
    ensures r.Entry? ==> r.fields != [] && p.at <= r.next <= |s.bytes| && (p.fields == [] ==> p.at < r.next)
    decreases |s.bytes| - p.at
  {
    match LineAt(c, s, p)
    case Done(result) => result
    case More(q) => EntryFrom(c, s, q)
  }

  function Start(i: nat): Progress {
    Progress(i, [], [], 0)
  }

  class Collector {
    const config: Config
    const stream: Stream
    var position: nat

    ghost predicate Valid()
      reads this
    {
      position <= |stream.bytes|
    }

    constructor (config: Config, stream: Stream)
      ensures this.config == config && this.stream == stream && position == 0 && Valid()
    {
      this.config := config;
      this.stream := stream;
      position := 0;
    }

    /** A line without its newline; `last` when the stream ended first. */
    method ReadLine() returns (line: Bytes, last: bool)
      requires Valid()
      modifies this`position
      ensures Valid()
      ensures var end := IndexFrom(stream.bytes, old(position), NEWLINE);
              && line == stream.bytes[old(position)..end] && last == (end == |stream.bytes|)
              && position == if last then end else end + 1
    {
      var start := position;
      while position < |stream.bytes| && stream.bytes[position] != NEWLINE
        invariant start <= position <= |stream.bytes|
        invariant IndexFrom(stream.bytes, start, NEWLINE) == IndexFrom(stream.bytes, position, NEWLINE)
      {
        position := position + 1;
      }
      line := stream.bytes[start..position];
      last := position == |stream.bytes|;
      if !last {
        position := position + 1;
      }
    }

    method ReadBinaryValue() returns (r: Result<Bytes, bool>)
      requires Valid()
      modifies this`position
      ensures Valid()
      ensures match BinaryAt(config, stream, old(position))
              case Err(eof) => r == Err(eof)
              case Ok((value, after)) => r == Ok(value) && position == after == old(position) + 8 + |value| + 1
    {
      if |stream.bytes| < position + 8 {
        var none := position == |stream.bytes|;
        position := |stream.bytes|;
        return Err(none && !stream.broken);
      }
      var length := LittleEndian(stream.bytes[position..position + 8]);
      position := position + 8;
      if length > config.maxEntryBytes || length > MAX_INT {
        return Err(false);
      }
      if |stream.bytes| < position + length {
        var none := position == |stream.bytes|;
        position := |stream.bytes|;
        return Err(none && !stream.broken);
      }
      var value := stream.bytes[position..position + length];
      position := position + length;
      if position == |stream.bytes| {
        return Err(!stream.broken);
      }
      if stream.bytes[position] != NEWLINE {
        return Err(false);
      }
      position := position + 1;
      return Ok(value);
    }

    method ReadField(line: Bytes) returns (r: Result<Field, bool>)
      requires Valid()
      modifies this`position
      ensures Valid()
      ensures match FieldAt(config, stream, line, old(position))
              case Err(eof) => r == Err(eof)
              case Ok((f, after)) => r == Ok(f) && position == after
    {
      var split := IndexFrom(line, 0, EQUALS);
      var name := line[..split];
      if !IsName(name) {
        return Err(false);
      }
      if split < |line| {
        return Ok(Field(name, line[split + 1..]));
      }
      var value := ReadBinaryValue();
      return if value.Ok? then Ok(Field(name, value.value)) else Err(value.error);
    }

    /** One turn of the entry loop. */
    method TakeLine(fields: seq<Field>, cursor: Bytes, total: nat) returns (r: LineRead)
      requires Valid()
      modifies this`position
      ensures Valid() && r == LineAt(config, stream, Progress(old(position), fields, cursor, total))
      ensures r.More? ==> position == r.progress.at
      ensures r.Done? && r.result.Entry? ==> position == r.result.next
    {
      hide FieldAt, IndexFrom, NewCursor;
      var from := position;
      var line, last := ReadLine();
      if last && stream.broken {
        return Done(Failed(false));
      }
      if last && line == [] {
        return Done(if fields == [] then EndOfFile else Entry(fields, cursor, position));
      }
      if total + (position - from) > config.maxEntryBytes {
        return Done(Failed(false));
      }
      if line == [] {
        return if fields == [] then More(Progress(position, fields, cursor, total + (position - from)))
          else Done(Entry(fields, cursor, position));
      }
      var f := ReadField(line);
      if f.Err? {
        return Done(Failed(f.error));
      }
      if total + (position - from) > config.maxEntryBytes {
        return Done(Failed(false));
      }
      var all, latest := fields + [f.value], NewCursor(config, f.value, cursor);
      return if last then Done(Entry(all, latest, position))
        else More(Progress(position, all, latest, total + (position - from)));
    }

    method ReadEntry() returns (r: EntryRead)
      requires Valid()
      modifies this`position
      ensures Valid() && r == EntryFrom(config, stream, Start(old(position))) && (r.Entry? ==> position == r.next)
    {
      hide LineAt;
      ghost var start := position;
      var fields: seq<Field>, cursor: Bytes, total: nat := [], [], 0;
      while true
        invariant Valid()
        invariant EntryFrom(config, stream, Start(start)) ==
          EntryFrom(config, stream, Progress(position, fields, cursor, total))
        decreases |stream.bytes| - position
      {
        var step := TakeLine(fields, cursor, total);
        if step.Done? {
          return step.result;
        }
        fields, cursor, total := step.progress.fields, step.progress.cursor, step.progress.total;
      }
    }
  }

  // ----- the written form -----

  datatype Written = TextField(name: Bytes, value: Bytes) | BinaryField(name: Bytes, value: Bytes)

  function Read(w: Written): Field {
    Field(w.name, w.value)
  }

  /** Text values hold no newline; binary ones anything a platform integer can count. */
  predicate IsWritten(w: Written) {
    IsName(w.name) && (if w.TextField? then NEWLINE !in w.value else |w.value| <= MAX_INT)
  }

  function LengthBytes(n: nat, k: nat): (r: Bytes)
    ensures |r| == k
  {
    if k == 0 then [] else [(n % 256) as byte] + LengthBytes(n / 256, k - 1)
  }

  function Pow256(k: nat): nat {
    if k == 0 then 1 else 256 * Pow256(k - 1)
  }

  lemma {:induction false} LengthReads(n: nat, k: nat)
    requires n < Pow256(k)
    ensures LittleEndian(LengthBytes(n, k)) == n
  {
    if k > 0 {
      LengthReads(n / 256, k - 1);
      assert LengthBytes(n, k)[1..] == LengthBytes(n / 256, k - 1);
    }
  }

  lemma EightBytesHold(n: nat)
    requires n <= MAX_INT
    ensures n < Pow256(8)
  {
    assert Pow256(4) == 0x1_0000_0000;
    assert Pow256(8) == 0x1_0000_0000_0000_0000;
  }

  function Write(w: Written): Bytes {
    match w
    case TextField(name, value) => name + [EQUALS] + value + [NEWLINE]
    case BinaryField(name, value) => name + [NEWLINE] + LengthBytes(|value|, 8) + value + [NEWLINE]
  }

  function WriteFields(fields: seq<Written>): Bytes {
    if fields == [] then [] else Write(fields[0]) + WriteFields(fields[1..])
  }

  /** An entry is its fields and a blank line. */
  function WriteEntry(fields: seq<Written>): Bytes {
    WriteFields(fields) + [NEWLINE]
  }

  function WriteAll(entries: seq<seq<Written>>): Bytes {
    if entries == [] then [] else WriteEntry(entries[0]) + WriteAll(entries[1..])
  }

  predicate IsWrittenEntry(c: Config, fields: seq<Written>) {
    && fields != [] && |WriteEntry(fields)| <= c.maxEntryBytes
    && forall i :: 0 <= i < |fields| ==> IsWritten(fields[i])
  }

  predicate At(s: Stream, i: nat, part: Bytes) {
    i + |part| <= |s.bytes| && s.bytes[i..i + |part|] == part
  }

  lemma Parts(s: Stream, i: nat, a: Bytes, b: Bytes)
    requires At(s, i, a + b)
    ensures At(s, i, a) && At(s, i + |a|, b)
  {
    assert s.bytes[i..i + |a + b|][..|a|] == a && s.bytes[i..i + |a + b|][|a|..] == b;
  }

  lemma Single(s: Stream, i: nat, b: byte)
    requires At(s, i, [b])
    ensures i < |s.bytes| && s.bytes[i] == b
  {
    assert s.bytes[i] == s.bytes[i..i + 1][0];
  }

  lemma {:induction false} IndexIs(bytes: Bytes, i: nat, r: nat, target: byte)
    requires i <= r < |bytes| && bytes[r] == target && forall j :: i <= j < r ==> bytes[j] != target
    ensures IndexFrom(bytes, i, target) == r
    decreases r - i
  {
    if i < r {
      IndexIs(bytes, i + 1, r, target);
    }
  }

  /** A written line is read as that line. */
  lemma LineReads(s: Stream, i: nat, line: Bytes)
    requires At(s, i, line + [NEWLINE]) && NEWLINE !in line
    ensures IndexFrom(s.bytes, i, NEWLINE) == i + |line| < |s.bytes| && s.bytes[i..i + |line|] == line
  {
    Parts(s, i, line, [NEWLINE]);
    Single(s, i + |line|, NEWLINE);
    forall j | i <= j < i + |line|
      ensures s.bytes[j] != NEWLINE
    {
      assert s.bytes[j] == s.bytes[i..i + |line|][j - i];
    }
    IndexIs(s.bytes, i, i + |line|, NEWLINE);
  }

  lemma NameIsPlain(name: Bytes)
    requires IsName(name)
    ensures NEWLINE !in name && EQUALS !in name && name != []
  {
  }

  lemma WrittenIsPlain(w: Written)
    requires IsWritten(w)
    ensures NEWLINE !in w.name && w.name != [] && (w.BinaryField? ==> |w.value| <= MAX_INT)
  {
    NameIsPlain(w.name);
  }

  lemma TextSplits(c: Config, s: Stream, w: Written, next: nat)
    requires IsWritten(w) && w.TextField? && next <= |s.bytes|
    ensures FieldAt(c, s, w.name + [EQUALS] + w.value, next) == Ok((Read(w), next))
  {
    var line := w.name + [EQUALS] + w.value;
    NameIsPlain(w.name);
    forall j | 0 <= j < |w.name|
      ensures line[j] != EQUALS
    {
      assert line[j] == w.name[j];
    }
    IndexIs(line, 0, |w.name|, EQUALS);
    assert line[..|w.name|] == w.name && line[|w.name| + 1..] == w.value;
  }

  lemma BinaryReads(c: Config, s: Stream, i: nat, value: Bytes)
    requires At(s, i, LengthBytes(|value|, 8) + value + [NEWLINE]) && |value| <= MAX_INT && |value| <= c.maxEntryBytes
    ensures BinaryAt(c, s, i) == Ok((value, i + 8 + |value| + 1))
  {
    hide LengthBytes, LittleEndian, At;
    var length := LengthBytes(|value|, 8);
    EightBytesHold(|value|);
    LengthReads(|value|, 8);
    BinaryParts(s, i, length, value);
  }

  lemma BinaryParts(s: Stream, i: nat, length: Bytes, value: Bytes)
    requires |length| == 8 && At(s, i, length + value + [NEWLINE])
    ensures i + 8 + |value| < |s.bytes| && s.bytes[i + 8 + |value|] == NEWLINE
    ensures s.bytes[i..i + 8] == length && s.bytes[i + 8..i + 8 + |value|] == value
  {
    Parts(s, i, length + value, [NEWLINE]);
    Parts(s, i, length, value);
    Single(s, i + 8 + |value|, NEWLINE);
  }

  lemma NameSplits(c: Config, s: Stream, w: Written, next: nat)
    requires IsWritten(w) && w.BinaryField? && next <= |s.bytes| && BinaryAt(c, s, next).Ok?
      && BinaryAt(c, s, next).value.0 == w.value
    ensures FieldAt(c, s, w.name, next) == Ok((Read(w), BinaryAt(c, s, next).value.1))
  {
    NameIsPlain(w.name);
    hide BinaryAt, IsName;
    assert IndexFrom(w.name, 0, EQUALS) == |w.name|;
    assert w.name[..|w.name|] == w.name;
  }

  /** The progress after one more written field. */
  function Taken(c: Config, p: Progress, w: Written): Progress {
    Progress(p.at + |Write(w)|, p.fields + [Read(w)], NewCursor(c, Read(w), p.cursor), p.total + |Write(w)|)
  }

  lemma FieldLine(c: Config, s: Stream, p: Progress, line: Bytes, w: Written)
    requires p.at <= |s.bytes| && line != [] && IndexFrom(s.bytes, p.at, NEWLINE) == p.at + |line| < |s.bytes|
    requires s.bytes[p.at..p.at + |line|] == line && p.total + |Write(w)| <= c.maxEntryBytes && |line| < |Write(w)|
    requires FieldAt(c, s, line, p.at + |line| + 1) == Ok((Read(w), p.at + |Write(w)|))
    ensures LineAt(c, s, p) == More(Taken(c, p, w))
  {
    hide FieldAt, IndexFrom, Write, NewCursor;
  }

  lemma FieldReads(c: Config, s: Stream, p: Progress, w: Written)
    requires IsWritten(w) && At(s, p.at, Write(w)) && p.total + |Write(w)| <= c.maxEntryBytes
    ensures LineAt(c, s, p) == More(Taken(c, p, w))
  {
    if w.TextField? {
      TextReads(c, s, p, w);
    } else {
      LengthPrefixedReads(c, s, p, w);
    }
  }

  lemma TextReads(c: Config, s: Stream, p: Progress, w: Written)
    requires IsWritten(w) && w.TextField? && At(s, p.at, Write(w)) && p.total + |Write(w)| <= c.maxEntryBytes
    ensures LineAt(c, s, p) == More(Taken(c, p, w))
  {
    hide *;
    var line := w.name + [EQUALS] + w.value;
    TextLine(w);
    LineReads(s, p.at, line);
    TextSplits(c, s, w, p.at + |line| + 1);
    FieldLine(c, s, p, line, w);
  }

  lemma TextLine(w: Written)
    requires IsWritten(w) && w.TextField?
    ensures var line := w.name + [EQUALS] + w.value;
            Write(w) == line + [NEWLINE] && NEWLINE !in line
  {
    WrittenIsPlain(w);
    hide IsName;
  }

  lemma LengthPrefixedParts(s: Stream, i: nat, w: Written)
    requires w.BinaryField? && At(s, i, Write(w))
    ensures At(s, i, w.name + [NEWLINE]) && At(s, i + |w.name| + 1, LengthBytes(|w.value|, 8) + w.value + [NEWLINE])
    ensures |Write(w)| == |w.name| + 1 + 8 + |w.value| + 1
  {
    hide At, LengthBytes;
    var length := LengthBytes(|w.value|, 8);
    var tail := length + w.value + [NEWLINE];
    assert w.name + [NEWLINE] + length + w.value + [NEWLINE] == w.name + [NEWLINE] + tail;
    Parts(s, i, w.name + [NEWLINE], tail);
  }

  lemma LengthPrefixedReads(c: Config, s: Stream, p: Progress, w: Written)
    requires IsWritten(w) && w.BinaryField? && At(s, p.at, Write(w)) && p.total + |Write(w)| <= c.maxEntryBytes
    ensures LineAt(c, s, p) == More(Taken(c, p, w))
  {
    hide *;
    WrittenIsPlain(w);
    LengthPrefixedParts(s, p.at, w);
    LineReads(s, p.at, w.name);
    var next := p.at + |w.name| + 1;
    BinaryReads(c, s, next, w.value);
    NameSplits(c, s, w, next);
    FieldLine(c, s, p, w.name, w);
  }

  function ReadFields(fields: seq<Written>): (r: seq<Field>)
    ensures |r| == |fields|
  {
    seq(|fields|, i requires 0 <= i < |fields| => Read(fields[i]))
  }

  /** The last readable cursor field wins. */
  function CursorOf(c: Config, fields: seq<Written>, cursor: Bytes): Bytes {
    if fields == [] then cursor else CursorOf(c, fields[1..], NewCursor(c, Read(fields[0]), cursor))
  }

  /** A field that can serve as the entry's cursor. */
  predicate IsCursor(c: Config, w: Written) {
    w.name == CURSOR && c.isUtf8(w.value)
  }

  /** The cursor is the value of the last field that can serve as one, and the given one where none can. */
  lemma {:induction false} CursorIsLast(c: Config, fields: seq<Written>, cursor: Bytes, last: int)
    requires -1 <= last < |fields| && (last >= 0 ==> IsCursor(c, fields[last]))
    requires forall j :: last < j < |fields| ==> !IsCursor(c, fields[j])
    ensures CursorOf(c, fields, cursor) == if last < 0 then cursor else fields[last].value
  {
    if fields != [] {
      var rest := fields[1..];
      assert forall j :: 0 <= j < |rest| ==> rest[j] == fields[j + 1];
      CursorIsLast(c, rest, NewCursor(c, Read(fields[0]), cursor), if last < 0 then -1 else last - 1);
    }
  }

  /** The rest of a written entry stands at the current position and fits the limit. */
  predicate Pending(c: Config, s: Stream, p: Progress, fields: seq<Written>) {
    && (forall i :: 0 <= i < |fields| ==> IsWritten(fields[i])) && At(s, p.at, WriteEntry(fields))
    && p.total + |WriteEntry(fields)| <= c.maxEntryBytes && (fields != [] || p.fields != [])
  }

  function Finished(c: Config, p: Progress, fields: seq<Written>): EntryRead {
    Entry(p.fields + ReadFields(fields), CursorOf(c, fields, p.cursor), p.at + |WriteEntry(fields)|)
  }

  lemma PendingAt(s: Stream, i: nat, a: Bytes, b: Bytes)
    requires At(s, i, a + b)
    ensures i <= |s.bytes| && At(s, i, a) && At(s, i + |a|, b)
  {
    Parts(s, i, a, b);
  }

  lemma PendingHead(c: Config, s: Stream, p: Progress, fields: seq<Written>)
    requires Pending(c, s, p, fields) && fields != []
    ensures p.at <= |s.bytes| && IsWritten(fields[0]) && At(s, p.at, Write(fields[0]))
      && p.total + |Write(fields[0])| <= c.maxEntryBytes
    ensures Pending(c, s, Taken(c, p, fields[0]), fields[1..])
  {
    hide Write, WriteEntry, NewCursor, IsWritten;
    EntryHead(fields);
    PendingAt(s, p.at, Write(fields[0]), WriteEntry(fields[1..]));
    hide At;
    var rest := fields[1..];
    assert forall i :: 0 <= i < |rest| ==> rest[i] == fields[i + 1];
  }

  lemma FinishedHead(c: Config, p: Progress, fields: seq<Written>)
    requires fields != []
    ensures Finished(c, p, fields) == Finished(c, Taken(c, p, fields[0]), fields[1..])
  {
    hide Write, WriteEntry, NewCursor;
    var w, rest := fields[0], fields[1..];
    EntryHead(fields);
    assert p.fields + ReadFields(fields) == p.fields + [Read(w)] + ReadFields(rest);
  }

  lemma {:induction false} EntryReads(c: Config, s: Stream, p: Progress, fields: seq<Written>)
    requires p.at <= |s.bytes| && Pending(c, s, p, fields)
    ensures EntryFrom(c, s, p) == Finished(c, p, fields)
    decreases |fields|
  {
    if fields == [] {
      BlankLine(c, s, p);
    } else {
      hide *;
      PendingHead(c, s, p, fields);
      FieldReads(c, s, p, fields[0]);
      EntryStep(c, s, p, Taken(c, p, fields[0]));
      EntryReads(c, s, Taken(c, p, fields[0]), fields[1..]);
      FinishedHead(c, p, fields);
    }
  }

  lemma EntryStep(c: Config, s: Stream, p: Progress, q: Progress)
    requires p.at <= |s.bytes| && LineAt(c, s, p) == More(q)
    ensures q.at <= |s.bytes| && EntryFrom(c, s, p) == EntryFrom(c, s, q)
  {
    hide LineAt;
  }

  lemma EntryHead(fields: seq<Written>)
    requires fields != []
    ensures WriteEntry(fields) == Write(fields[0]) + WriteEntry(fields[1..])
  {
    hide Write;
  }

  lemma BlankLine(c: Config, s: Stream, p: Progress)
    requires At(s, p.at, WriteEntry([])) && p.total + |WriteEntry([])| <= c.maxEntryBytes && p.fields != []
    ensures EntryFrom(c, s, p) == Entry(p.fields + ReadFields([]), p.cursor, p.at + |WriteEntry([])|)
  {
    assert WriteEntry([]) == [] + [NEWLINE];
    LineReads(s, p.at, []);
    assert p.fields + ReadFields([]) == p.fields;
    hide IndexFrom, FieldAt;
  }

  // ----- whole streams -----

  datatype Collected = Collected(entries: seq<(seq<Field>, Bytes)>, clean: bool)

  /** Reading entry after entry until the stream ends. */
  function Collect(c: Config, s: Stream, i: nat): Collected
    requires i <= |s.bytes|
    decreases |s.bytes| - i
  {
    match EntryFrom(c, s, Start(i))
    case EndOfFile => Collected([], true)
    case Failed(eof) => Collected([], eof)
    case Entry(fields, cursor, next) =>
      var rest := Collect(c, s, next);
      Collected([(fields, cursor)] + rest.entries, rest.clean)
  }

  function Expected(c: Config, entries: seq<seq<Written>>): (r: seq<(seq<Field>, Bytes)>)
    ensures |r| == |entries|
  {
    seq(|entries|, i requires 0 <= i < |entries| => (ReadFields(entries[i]), CursorOf(c, entries[i], [])))
  }

  lemma StartPending(c: Config, s: Stream, i: nat, fields: seq<Written>)
    requires IsWrittenEntry(c, fields) && At(s, i, WriteEntry(fields))
    ensures Start(i).at == i <= |s.bytes| && Pending(c, s, Start(i), fields) && i + |WriteEntry(fields)| <= |s.bytes|
  {
    hide WriteEntry, IsWritten;
  }

  lemma FinishedFromStart(c: Config, i: nat, fields: seq<Written>)
    ensures Finished(c, Start(i), fields) == Entry(ReadFields(fields), CursorOf(c, fields, []),
      i + |WriteEntry(fields)|)
  {
    hide WriteEntry, CursorOf, ReadFields;
    assert [] + ReadFields(fields) == ReadFields(fields);
  }

  lemma CollectEntry(c: Config, s: Stream, i: nat, fields: seq<Field>, cursor: Bytes, next: nat)
    requires i <= |s.bytes| && next <= |s.bytes| && EntryFrom(c, s, Start(i)) == Entry(fields, cursor, next)
    ensures Collect(c, s, i) == Collected([(fields, cursor)] + Collect(c, s, next).entries, Collect(c, s, next).clean)
  {
    hide EntryFrom;
  }

  lemma CollectStep(c: Config, s: Stream, i: nat, fields: seq<Written>)
    requires IsWrittenEntry(c, fields) && At(s, i, WriteEntry(fields))
    ensures var rest := Collect(c, s, i + |WriteEntry(fields)|);
            Collect(c, s, i) == Collected([(ReadFields(fields), CursorOf(c, fields, []))] + rest.entries, rest.clean)
  {
    hide *;
    StartPending(c, s, i, fields);
    EntryReads(c, s, Start(i), fields);
    FinishedFromStart(c, i, fields);
    CollectEntry(c, s, i, ReadFields(fields), CursorOf(c, fields, []), i + |WriteEntry(fields)|);
  }

  lemma {:induction false} CollectReads(c: Config, s: Stream, i: nat, entries: seq<seq<Written>>)
    requires !s.broken && (forall k :: 0 <= k < |entries| ==> IsWrittenEntry(c, entries[k]))
    requires At(s, i, WriteAll(entries)) && i + |WriteAll(entries)| == |s.bytes|
    ensures Collect(c, s, i) == Collected(Expected(c, entries), true)
    decreases |entries|
  {
    hide *;
    if entries == [] {
      CollectNothing(c, s, i);
    } else {
      var e, rest := entries[0], entries[1..];
      WriteAllHead(entries);
      Parts(s, i, WriteEntry(e), WriteAll(rest));
      CollectStep(c, s, i, e);
      CollectReads(c, s, i + |WriteEntry(e)|, rest);
      ExpectedHead(c, entries);
    }
  }

  lemma CollectNothing(c: Config, s: Stream, i: nat)
    requires !s.broken && At(s, i, WriteAll([])) && i + |WriteAll([])| == |s.bytes|
    ensures Collect(c, s, i) == Collected(Expected(c, []), true)
  {
    assert LineAt(c, s, Start(i)) == Done(EndOfFile);
    hide LineAt;
  }

  lemma WriteAllHead(entries: seq<seq<Written>>)
    requires entries != []
    ensures WriteAll(entries) == WriteEntry(entries[0]) + WriteAll(entries[1..])
  {
    hide WriteEntry;
  }

  lemma ExpectedHead(c: Config, entries: seq<seq<Written>>)
    requires entries != []
    ensures Expected(c, entries) == [(ReadFields(entries[0]), CursorOf(c, entries[0], []))] + Expected(c, entries[1..])
  {
    hide CursorOf, ReadFields;
  }

  /** Round trip: any list of entries with text and binary fields reads back field for field, cursor included. */
  lemma JournalRoundTrip(c: Config, entries: seq<seq<Written>>)
    requires forall k :: 0 <= k < |entries| ==> IsWrittenEntry(c, entries[k])
    ensures Collect(c, Stream(WriteAll(entries), false), 0) == Collected(Expected(c, entries), true)
  {
    CollectReads(c, Stream(WriteAll(entries), false), 0, entries);
  }
}
