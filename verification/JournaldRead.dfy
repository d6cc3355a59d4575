/** Whatever a journal sends, what is read from it was written there. */
module JournaldRead {
  import opened Wrappers
  import opened Journald

  function Blanks(n: nat): (r: Bytes)
    ensures |r| == n
  {
    if n == 0 then [] else [NEWLINE] + Blanks(n - 1)
  }

  lemma {:induction false} LengthInverse(b: Bytes)
    ensures LengthBytes(LittleEndian(b), |b|) == b
  {
    if b != [] {
      LengthInverse(b[1..]);
      assert LittleEndian(b) % 256 == b[0] && LittleEndian(b) / 256 == LittleEndian(b[1..]);
    }
  }

  lemma BinaryIsWritten(c: Config, s: Stream, i: nat)
    requires i <= |s.bytes| && BinaryAt(c, s, i).Ok?
    ensures var (value, after) := BinaryAt(c, s, i).value;
            && |value| <= MAX_INT && |value| <= c.maxEntryBytes
            && s.bytes[i..after] == LengthBytes(|value|, 8) + value + [NEWLINE]
  {
    hide LengthBytes, LittleEndian;
    var (value, after) := BinaryAt(c, s, i).value;
    var end := i + 8 + |value|;
    LengthInverse(s.bytes[i..i + 8]);
    assert s.bytes[i..after] == s.bytes[i..i + 8] + s.bytes[i + 8..end] + s.bytes[end..after];
    assert s.bytes[end..after] == [NEWLINE];
  }

  /** A field that is read was written: as the line itself, or as its name and the binary value after it. */
  lemma FieldIsWritten(c: Config, s: Stream, line: Bytes, next: nat) returns (w: Written)
    requires next <= |s.bytes| && NEWLINE !in line && FieldAt(c, s, line, next).Ok?
    ensures var (f, after) := FieldAt(c, s, line, next).value;
            && Read(w) == f && IsWritten(w)
            && if w.TextField? then after == next && line == w.name + [EQUALS] + w.value
               else line == w.name && s.bytes[next..after] == LengthBytes(|w.value|, 8) + w.value + [NEWLINE]
  {
    hide LengthBytes, BinaryAt, IsName;
    var split := IndexFrom(line, 0, EQUALS);
    var (f, after) := FieldAt(c, s, line, next).value;
    if split < |line| {
      w := TextField(f.name, f.value);
      assert line == line[..split] + [line[split]] + line[split + 1..];
      assert forall j :: 0 <= j < |w.value| ==> w.value[j] == line[split + 1 + j];
    } else {
      w := BinaryField(f.name, f.value);
      BinaryIsWritten(c, s, next);
      assert line[..split] == line;
    }
  }

  /** A line that lets reading go on is a blank one before the entry, or a written field. */
  lemma LineIsWritten(c: Config, s: Stream, p: Progress) returns (w: Option<Written>)
    requires p.at <= |s.bytes| && LineAt(c, s, p).More?
    ensures var q := LineAt(c, s, p).progress;
            && q.total <= c.maxEntryBytes
            && match w
               case None => p.fields == [] && At(s, p.at, [NEWLINE]) && q == p.(at := p.at + 1, total := p.total + 1)
               case Some(written) => IsWritten(written) && At(s, p.at, Write(written)) && q == Taken(c, p, written)
  {
    hide LineAt, IndexFrom, FieldAt, NewCursor, LengthBytes, IsWritten, At, Write;
    LineShape(c, s, p);
    var end := IndexFrom(s.bytes, p.at, NEWLINE);
    var line := s.bytes[p.at..end];
    w := None;
    if line != [] {
      PlainLine(s, p.at);
      var written := FieldIsWritten(c, s, line, end + 1);
      w := Some(written);
      WrittenThere(s, p.at, end, FieldAt(c, s, line, end + 1).value.1, written);
    }
  }

  /** What one turn of the loop did to go on. */
  lemma LineShape(c: Config, s: Stream, p: Progress)
    requires p.at <= |s.bytes| && LineAt(c, s, p).More?
    ensures var end := IndexFrom(s.bytes, p.at, NEWLINE);
            var line := s.bytes[p.at..end];
            var q := LineAt(c, s, p).progress;
            && end < |s.bytes| && s.bytes[end] == NEWLINE && q.total <= c.maxEntryBytes
            && if line == [] then
                 p.fields == [] && At(s, p.at, [NEWLINE]) && q == p.(at := p.at + 1, total := p.total + 1)
               else
                 && FieldAt(c, s, line, end + 1).Ok?
                 && var (f, after) := FieldAt(c, s, line, end + 1).value;
                    q == Progress(after, p.fields + [f], NewCursor(c, f, p.cursor), p.total + (after - p.at))
  {
    hide FieldAt, NewCursor;
  }

  lemma WrittenThere(s: Stream, i: nat, end: nat, after: nat, w: Written)
    requires i <= end < after <= |s.bytes| && s.bytes[end] == NEWLINE
    requires var line := s.bytes[i..end];
             if w.TextField? then after == end + 1 && line == w.name + [EQUALS] + w.value
             else line == w.name && s.bytes[end + 1..after] == LengthBytes(|w.value|, 8) + w.value + [NEWLINE]
    ensures At(s, i, Write(w)) && after == i + |Write(w)|
  {
    hide LengthBytes, Write;
    WriteIs(w, s.bytes[i..end], s.bytes[end + 1..after]);
    assert s.bytes[i..after] == s.bytes[i..end] + [NEWLINE] + s.bytes[end + 1..after];
  }

  lemma WriteIs(w: Written, line: Bytes, rest: Bytes)
    requires if w.TextField? then line == w.name + [EQUALS] + w.value && rest == []
             else line == w.name && rest == LengthBytes(|w.value|, 8) + w.value + [NEWLINE]
    ensures Write(w) == line + [NEWLINE] + rest
  {
    hide LengthBytes;
    if w.BinaryField? {
      assert w.name + [NEWLINE] + LengthBytes(|w.value|, 8) + w.value + [NEWLINE] ==
        line + [NEWLINE] + (LengthBytes(|w.value|, 8) + w.value + [NEWLINE]);
    } else {
      assert line + [NEWLINE] + [] == line + [NEWLINE];
    }
  }

  lemma PlainLine(s: Stream, i: nat)
    requires i <= |s.bytes|
    ensures NEWLINE !in s.bytes[i..IndexFrom(s.bytes, i, NEWLINE)]
  {
    var end := IndexFrom(s.bytes, i, NEWLINE);
    assert forall j :: 0 <= j < end - i ==> s.bytes[i..end][j] == s.bytes[i + j];
  }

  /** The newlines a stream that ended early lacks. */
  predicate Missing(s: Stream, next: nat, missing: Bytes) {
    missing == [] || (!s.broken && next == |s.bytes| && (missing == [NEWLINE] || missing == [NEWLINE, NEWLINE]))
  }

  /** `piece`, completed by `missing`, is blank lines and the written entry that reads as this one. */
  predicate IsEntry(
      c: Config, piece: Bytes, blanks: nat, written: seq<Written>, missing: Bytes, fields: seq<Field>, cursor: Bytes) {
    && (forall i :: 0 <= i < |written| ==> IsWritten(written[i]))
    && piece + missing == Blanks(blanks) + WriteEntry(written)
    && fields == ReadFields(written) && cursor == CursorOf(c, written, [])
  }

  /** The line that ends an entry: a blank one, or the end of the stream, with or without a last text field. */
  lemma LastLine(c: Config, s: Stream, p: Progress) returns (written: seq<Written>, missing: Bytes)
    requires p.at <= |s.bytes| && LineAt(c, s, p).Done? && LineAt(c, s, p).result.Entry?
    ensures var r := LineAt(c, s, p).result;
            && (forall i :: 0 <= i < |written| ==> IsWritten(written[i])) && Missing(s, r.next, missing)
            && s.bytes[p.at..r.next] + missing == WriteEntry(written)
            && r.fields == p.fields + ReadFields(written) && r.cursor == CursorOf(c, written, p.cursor)
            && (r.next > p.at ==> p.total + (r.next - p.at) <= c.maxEntryBytes)
  {
    hide IndexFrom, FieldAt, NewCursor, LengthBytes, IsWritten;
    var end := IndexFrom(s.bytes, p.at, NEWLINE);
    var line := s.bytes[p.at..end];
    var r := LineAt(c, s, p).result;
    written, missing := [], [];
    assert p.fields + ReadFields([]) == p.fields && WriteEntry([]) == [NEWLINE];
    if end < |s.bytes| {
      assert line == [];
      assert s.bytes[p.at..r.next] == [NEWLINE];
    } else if line == [] {
      missing := [NEWLINE];
    } else {
      PlainLine(s, p.at);
      var w := FieldIsWritten(c, s, line, end);
      EndIsText(c, s, line, w);
      written, missing := [w], [NEWLINE, NEWLINE];
      WriteIs(w, line, []);
      OneField(c, w, p.cursor);
      assert s.bytes[p.at..r.next] == line;
      assert line + [NEWLINE, NEWLINE] == line + [NEWLINE] + [] + [NEWLINE];
    }
  }

  lemma EndIsText(c: Config, s: Stream, line: Bytes, w: Written)
    requires FieldAt(c, s, line, |s.bytes|).Ok?
    requires var (f, after) := FieldAt(c, s, line, |s.bytes|).value;
             if w.TextField? then after == |s.bytes|
             else s.bytes[|s.bytes|..after] == LengthBytes(|w.value|, 8) + w.value + [NEWLINE]
    ensures w.TextField?
  {
    hide FieldAt;
  }

  lemma OneField(c: Config, w: Written, cursor: Bytes)
    ensures WriteEntry([w]) == Write(w) + [NEWLINE] && ReadFields([w]) == [Read(w)]
    ensures CursorOf(c, [w], cursor) == NewCursor(c, Read(w), cursor)
  {
    hide Write, NewCursor;
    EntryHead([w]);
    assert [w][1..] == [];
  }

  /** What is read from here on, after the fields read so far. */
  ghost predicate Continues(c: Config, s: Stream, p: Progress, blanks: nat, written: seq<Written>, missing: Bytes)
    requires p.at <= |s.bytes|
  {
    var r := EntryFrom(c, s, p);
    && r.Entry? && (forall i :: 0 <= i < |written| ==> IsWritten(written[i])) && Missing(s, r.next, missing)
    && s.bytes[p.at..r.next] + missing == Blanks(blanks) + WriteEntry(written) && (blanks > 0 ==> p.fields == [])
    && r.fields == p.fields + ReadFields(written) && r.cursor == CursorOf(c, written, p.cursor)
    && p.total + (r.next - p.at) <= c.maxEntryBytes
  }

  lemma {:induction false} EntryIsWritten(c: Config, s: Stream, p: Progress)
    returns (blanks: nat, written: seq<Written>, missing: Bytes)
    requires p.at <= |s.bytes| && EntryFrom(c, s, p).Entry? && p.total <= c.maxEntryBytes
    ensures Continues(c, s, p, blanks, written, missing)
    decreases |s.bytes| - p.at
  {
    hide LineAt, IsWritten, Write, LengthBytes;
    if LineAt(c, s, p).Done? {
      written, missing := LastLine(c, s, p);
      blanks := 0;
      assert Blanks(0) + WriteEntry(written) == WriteEntry(written);
    } else {
      var q := LineAt(c, s, p).progress;
      EntryStep(c, s, p, q);
      var line := LineIsWritten(c, s, p);
      var more, rest, lacking := EntryIsWritten(c, s, q);
      if line.None? {
        blanks, written, missing := more + 1, rest, lacking;
        BlankContinues(c, s, p, q, more, rest, lacking);
      } else {
        blanks, written, missing := 0, [line.value] + rest, lacking;
        FieldContinues(c, s, p, q, line.value, more, rest, lacking);
      }
    }
  }

  lemma BlankContinues(
      c: Config, s: Stream, p: Progress, q: Progress, blanks: nat, written: seq<Written>, missing: Bytes)
    requires p.at <= |s.bytes| && q == p.(at := p.at + 1, total := p.total + 1) && p.fields == []
    requires At(s, p.at, [NEWLINE]) && q.at <= |s.bytes| && EntryFrom(c, s, p) == EntryFrom(c, s, q)
    requires Continues(c, s, q, blanks, written, missing)
    ensures Continues(c, s, p, blanks + 1, written, missing)
  {
    hide EntryFrom, IsWritten, WriteEntry, ReadFields, CursorOf, Missing, At, Blanks;
    BlankBefore(s, p.at, EntryFrom(c, s, q).next, missing, blanks, WriteEntry(written));
  }

  lemma BlankBefore(s: Stream, i: nat, next: nat, missing: Bytes, blanks: nat, entry: Bytes)
    requires At(s, i, [NEWLINE]) && i + 1 <= next <= |s.bytes|
    requires s.bytes[i + 1..next] + missing == Blanks(blanks) + entry
    ensures s.bytes[i..next] + missing == Blanks(blanks + 1) + entry
  {
    assert s.bytes[i..next] == s.bytes[i..i + 1] + s.bytes[i + 1..next];
    assert s.bytes[i..next] + missing == [NEWLINE] + (s.bytes[i + 1..next] + missing);
    assert [NEWLINE] + (Blanks(blanks) + entry) == [NEWLINE] + Blanks(blanks) + entry;
  }

  lemma FieldContinues(
      c: Config, s: Stream, p: Progress, q: Progress, w: Written, blanks: nat, rest: seq<Written>, missing: Bytes)
    requires p.at <= |s.bytes| && q == Taken(c, p, w) && q.at <= |s.bytes| && IsWritten(w)
    requires At(s, p.at, Write(w)) && EntryFrom(c, s, p) == EntryFrom(c, s, q)
    requires Continues(c, s, q, blanks, rest, missing)
    ensures Continues(c, s, p, 0, [w] + rest, missing)
  {
    hide EntryFrom, IsWritten, Write, WriteEntry, NewCursor, Missing;
    var r, all := EntryFrom(c, s, q), [w] + rest;
    assert all[1..] == rest && all[0] == w;
    EntryHead(all);
    assert blanks == 0;
    assert Blanks(0) + WriteEntry(rest) == WriteEntry(rest);
    assert s.bytes[p.at..r.next] == Write(w) + s.bytes[q.at..r.next];
    assert s.bytes[p.at..r.next] + missing == Write(w) + (s.bytes[q.at..r.next] + missing);
    assert Blanks(0) + WriteEntry(all) == WriteEntry(all);
    assert p.fields + ReadFields(all) == p.fields + [Read(w)] + ReadFields(rest);
    assert forall i :: 0 <= i < |all| ==> all[i] == if i == 0 then w else rest[i - 1];
  }

  function Concat(pieces: seq<Bytes>): Bytes {
    if pieces == [] then [] else pieces[0] + Concat(pieces[1..])
  }

  /** The octets of one collected entry. */
  ghost predicate Holds(c: Config, piece: Bytes, entry: (seq<Field>, Bytes)) {
    && |piece| <= c.maxEntryBytes
    && exists blanks, written, missing :: IsEntry(c, piece, blanks, written, missing, entry.0, entry.1)
  }

  ghost predicate HoldAll(c: Config, pieces: seq<Bytes>, entries: seq<(seq<Field>, Bytes)>) {
    |pieces| == |entries| && forall k :: 0 <= k < |entries| ==> Holds(c, pieces[k], entries[k])
  }

  lemma ReadHolds(c: Config, s: Stream, i: nat)
    requires i <= |s.bytes| && EntryFrom(c, s, Start(i)).Entry?
    ensures var r := EntryFrom(c, s, Start(i));
            Holds(c, s.bytes[i..r.next], (r.fields, r.cursor))
  {
    hide EntryFrom, IsWritten, WriteEntry, CursorOf, Missing, ReadFields;
    var r := EntryFrom(c, s, Start(i));
    var blanks, written, missing := EntryIsWritten(c, s, Start(i));
    assert [] + ReadFields(written) == ReadFields(written);
    assert IsEntry(c, s.bytes[i..r.next], blanks, written, missing, r.fields, r.cursor);
  }

  /**
   * Whatever a journal sends, the entries collected from it stand there one after another, each as
   * blank lines and the written form of exactly its fields, within the limit; only the end of the
   * stream may cut their newlines. Collecting stops where no entry follows, and is clean exactly when
   * the stream ended there, or inside an entry at one of the points told apart before.
   */
  lemma {:induction false} AnyExport(c: Config, s: Stream, i: nat) returns (pieces: seq<Bytes>, at: nat)
    requires i <= |s.bytes|
    ensures var r := Collect(c, s, i);
            && i <= at <= |s.bytes| && s.bytes[i..at] == Concat(pieces) && HoldAll(c, pieces, r.entries)
            && match EntryFrom(c, s, Start(at))
               case Entry(_, _, _) => false
               case EndOfFile => r.clean
               case Failed(eof) => r.clean == eof
    decreases |s.bytes| - i
  {
    hide EntryFrom, Holds;
    var first := EntryFrom(c, s, Start(i));
    pieces, at := [], i;
    if first.Entry? {
      var rest, end := AnyExport(c, s, first.next);
      ReadHolds(c, s, i);
      var piece := s.bytes[i..first.next];
      pieces, at := [piece] + rest, end;
      assert pieces[1..] == rest;
      assert s.bytes[i..at] == piece + s.bytes[first.next..at];
    }
  }
}
