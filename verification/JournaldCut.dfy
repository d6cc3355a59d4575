/** A journal export cut off after any octet: what is still collected, and whether the end looks clean. */
module JournaldCut {
  import opened Wrappers
  import opened Journald

  // ----- what a cut leaves -----

  /**
   * A field cut after `r` of its octets. Inside its name nothing is left, and the end looks clean; a
   * text value is shortened; a binary value is lost, and the end looks clean only where the cut
   * falls just before the length, just before the value or just before the terminator.
   */
  function CutField(w: Written, r: nat): Result<Field, bool>
    requires 0 < r < |Write(w)|
  {
    var name := |w.name|;
    match w
    case TextField(_, value) => if r <= name then Err(true) else Ok(Field(w.name, value[..r - name - 1]))
    case BinaryField(_, value) => Err(r <= name + 1 || r == name + 9 || r == name + 9 + |value|)
  }

  /** What an entry cut after `r` octets reads as, given the fields and cursor before. */
  function CutEntry(c: Config, fields: seq<Written>, r: nat, p: Progress): EntryRead
    requires r <= |WriteFields(fields)|
    decreases |fields|
  {
    if r == 0 then if p.fields == [] then EndOfFile else Entry(p.fields, p.cursor, p.at)
    else if r >= |Write(fields[0])| then CutEntry(c, fields[1..], r - |Write(fields[0])|, Taken(c, p, fields[0]))
    else match CutField(fields[0], r)
      case Err(eof) => Failed(eof)
      case Ok(f) => Entry(p.fields + [f], NewCursor(c, f, p.cursor), p.at + r)
  }

  /** What a whole export cut after `n` octets collects. */
  function CutAll(c: Config, entries: seq<seq<Written>>, n: nat): Collected
    requires n <= |WriteAll(entries)|
    decreases |entries|
  {
    if entries == [] then Collected([], true)
    else if n >= |WriteEntry(entries[0])| then
      var rest := CutAll(c, entries[1..], n - |WriteEntry(entries[0])|);
      Collected([(ReadFields(entries[0]), CursorOf(c, entries[0], []))] + rest.entries, rest.clean)
    else match CutEntry(c, entries[0], n, Start(0))
      case EndOfFile => Collected([], true)
      case Failed(eof) => Collected([], eof)
      case Entry(fields, cursor, _) => Collected([(fields, cursor)], true)
  }

  // ----- one field -----

  /** The rest of the stream from `i` is `part`, and then it ends. */
  predicate Ends(s: Stream, i: nat, part: Bytes) {
    !s.broken && i + |part| == |s.bytes| && s.bytes[i..] == part
  }

  lemma {:induction false} NoMore(bytes: Bytes, i: nat, target: byte)
    requires i <= |bytes| && forall j :: i <= j < |bytes| ==> bytes[j] != target
    ensures IndexFrom(bytes, i, target) == |bytes|
    decreases |bytes| - i
  {
    if i < |bytes| {
      NoMore(bytes, i + 1, target);
    }
  }

  lemma LastLine(s: Stream, i: nat, line: Bytes)
    requires Ends(s, i, line) && NEWLINE !in line
    ensures IndexFrom(s.bytes, i, NEWLINE) == |s.bytes| && s.bytes[i..|s.bytes|] == line
  {
    forall j | i <= j < |s.bytes|
      ensures s.bytes[j] != NEWLINE
    {
      assert s.bytes[j] == s.bytes[i..][j - i];
    }
    NoMore(s.bytes, i, NEWLINE);
    assert s.bytes[i..|s.bytes|] == s.bytes[i..];
  }

  /** The outcome of a last, unterminated line. */
  lemma LastLineReads(c: Config, s: Stream, p: Progress, line: Bytes)
    requires Ends(s, p.at, line) && NEWLINE !in line && line != [] && p.total + |line| <= c.maxEntryBytes
    ensures LineAt(c, s, p) == match FieldAt(c, s, line, |s.bytes|)
                               case Err(eof) => Done(Failed(eof))
                               case Ok((f, after)) =>
                                 if p.total + (after - p.at) > c.maxEntryBytes then Done(Failed(false))
                                 else Done(Entry(p.fields + [f], NewCursor(c, f, p.cursor), after))
  {
    LastLine(s, p.at, line);
    hide IndexFrom, FieldAt, NewCursor;
  }

  lemma NamePrefix(name: Bytes, r: nat)
    requires IsName(name) && 0 < r <= |name|
    ensures IsName(name[..r]) && NEWLINE !in name[..r] && EQUALS !in name[..r]
  {
  }

  lemma CutNameReads(c: Config, s: Stream, name: Bytes)
    requires IsName(name) && EQUALS !in name && !s.broken
    ensures FieldAt(c, s, name, |s.bytes|) == Err(true)
  {
    NoMore(name, 0, EQUALS);
    assert name[..|name|] == name;
  }

  lemma PrefixOf(a: Bytes, b: Bytes, r: nat)
    requires r <= |a| + |b|
    ensures r <= |a| ==> (a + b)[..r] == a[..r]
    ensures |a| <= r ==> (a + b)[..r] == a + b[..r - |a|]
  {
  }

  lemma CutNameEnds(c: Config, s: Stream, p: Progress, w: Written, r: nat)
    requires IsWritten(w) && 0 < r <= |w.name| && r < |Write(w)| && Ends(s, p.at, Write(w)[..r])
    requires p.total + |Write(w)| <= c.maxEntryBytes
    ensures LineAt(c, s, p) == Done(Failed(true))
  {
    WriteStarts(w);
    PrefixOf(w.name, Write(w)[|w.name|..], r);
    NamePrefix(w.name, r);
    hide FieldAt, LineAt, IsName, Write;
    LastLineReads(c, s, p, w.name[..r]);
    CutNameReads(c, s, w.name[..r]);
  }

  lemma WriteStarts(w: Written)
    ensures |w.name| + 2 <= |Write(w)| && Write(w) == w.name + Write(w)[|w.name|..]
  {
    if w.TextField? {
      assert Write(w) == w.name + ([EQUALS] + w.value + [NEWLINE]);
    } else {
      assert Write(w) == w.name + ([NEWLINE] + LengthBytes(|w.value|, 8) + w.value + [NEWLINE]);
    }
  }

  lemma CutTextEnds(c: Config, s: Stream, p: Progress, w: Written, r: nat)
    requires IsWritten(w) && w.TextField? && |w.name| < r < |Write(w)| && Ends(s, p.at, Write(w)[..r])
    requires p.total + |Write(w)| <= c.maxEntryBytes
    ensures var f := Field(w.name, w.value[..r - |w.name| - 1]);
            LineAt(c, s, p) == Done(Entry(p.fields + [f], NewCursor(c, f, p.cursor), p.at + r))
  {
    var k := r - |w.name| - 1;
    var short := TextField(w.name, w.value[..k]);
    var line := w.name + [EQUALS] + w.value[..k];
    WrittenIsPlain(w);
    assert Write(w)[..r] == line;
    assert NEWLINE !in line && IsWritten(short);
    LastLineReads(c, s, p, line);
    TextSplits(c, s, short, |s.bytes|);
  }

  /** What is left of a binary value after its name line. */
  lemma CutBinaryReads(c: Config, s: Stream, i: nat, value: Bytes, m: nat)
    requires |value| <= MAX_INT && |value| <= c.maxEntryBytes && m <= 8 + |value|
    requires Ends(s, i, (LengthBytes(|value|, 8) + value)[..m])
    ensures BinaryAt(c, s, i) == Err(m == 0 || m == 8 || m == 8 + |value|)
  {
    var length := LengthBytes(|value|, 8);
    EightBytesHold(|value|);
    LengthReads(|value|, 8);
    PrefixOf(length, value, m);
    hide LengthBytes, LittleEndian;
    if 8 <= m {
      assert s.bytes[i..i + 8] == s.bytes[i..][..8] == length;
    }
  }

  lemma NameLineReads(c: Config, s: Stream, p: Progress, name: Bytes, eof: bool)
    requires IsName(name) && EQUALS !in name && At(s, p.at, name + [NEWLINE]) && NEWLINE !in name
    requires p.total + |name| + 1 <= c.maxEntryBytes && BinaryAt(c, s, p.at + |name| + 1) == Err(eof)
    ensures LineAt(c, s, p) == Done(Failed(eof))
  {
    LineReads(s, p.at, name);
    NoMore(name, 0, EQUALS);
    assert name[..|name|] == name;
    assert FieldAt(c, s, name, p.at + |name| + 1) == Err(eof) by {
      hide BinaryAt, IndexFrom;
    }
    hide FieldAt, IndexFrom, BinaryAt;
  }

  lemma CutBinaryEnds(c: Config, s: Stream, p: Progress, w: Written, r: nat)
    requires IsWritten(w) && w.BinaryField? && |w.name| < r < |Write(w)| && Ends(s, p.at, Write(w)[..r])
    requires p.total + |Write(w)| <= c.maxEntryBytes
    ensures LineAt(c, s, p) == Done(Failed(CutField(w, r).error))
  {
    hide LengthBytes, BinaryAt, LineAt, At, Ends, IsName, Write;
    var head, tail := w.name + [NEWLINE], LengthBytes(|w.value|, 8) + w.value;
    var m := r - |head|;
    NameIsPlain(w.name);
    BinaryPrefix(w, r);
    EndsParts(s, p.at, head, tail[..m]);
    CutBinaryReads(c, s, p.at + |head|, w.value, m);
    NameLineReads(c, s, p, w.name, m == 0 || m == 8 || m == 8 + |w.value|);
  }

  lemma BinaryPrefix(w: Written, r: nat)
    requires w.BinaryField? && |w.name| < r < |Write(w)|
    ensures |Write(w)| == |w.name| + 1 + 8 + |w.value| + 1
    ensures Write(w)[..r] == w.name + [NEWLINE] + (LengthBytes(|w.value|, 8) + w.value)[..r - |w.name| - 1]
  {
    hide LengthBytes;
  }

  lemma EndsParts(s: Stream, i: nat, a: Bytes, b: Bytes)
    requires Ends(s, i, a + b)
    ensures At(s, i, a) && Ends(s, i + |a|, b)
  {
    assert s.bytes[i..][..|a|] == a && s.bytes[i..][|a|..] == b;
    assert s.bytes[i + |a|..] == s.bytes[i..][|a|..];
  }

  // ----- one entry -----

  lemma CutFieldEnds(c: Config, s: Stream, p: Progress, w: Written, r: nat)
    requires IsWritten(w) && 0 < r < |Write(w)| && Ends(s, p.at, Write(w)[..r])
    requires p.total + |Write(w)| <= c.maxEntryBytes
    ensures LineAt(c, s, p) == match CutField(w, r)
                               case Err(eof) => Done(Failed(eof))
                               case Ok(f) => Done(Entry(p.fields + [f], NewCursor(c, f, p.cursor), p.at + r))
  {
    hide LineAt, Ends;
    if r <= |w.name| {
      CutNameEnds(c, s, p, w, r);
    } else if w.TextField? {
      CutTextEnds(c, s, p, w, r);
    } else {
      CutBinaryEnds(c, s, p, w, r);
    }
  }

  lemma EmptyEnds(c: Config, s: Stream, p: Progress)
    requires Ends(s, p.at, [])
    ensures LineAt(c, s, p) == Done(if p.fields == [] then EndOfFile else Entry(p.fields, p.cursor, p.at))
  {
    LastLine(s, p.at, []);
  }

  lemma FieldsHead(fields: seq<Written>, r: nat)
    requires fields != [] && r <= |WriteFields(fields)|
    ensures WriteFields(fields) == Write(fields[0]) + WriteFields(fields[1..])
    ensures r <= |Write(fields[0])| ==> WriteFields(fields)[..r] == Write(fields[0])[..r]
    ensures |Write(fields[0])| <= r ==>
              WriteFields(fields)[..r] == Write(fields[0]) + WriteFields(fields[1..])[..r - |Write(fields[0])|]
  {
    PrefixOf(Write(fields[0]), WriteFields(fields[1..]), r);
  }

  lemma {:induction false} CutEntryReads(c: Config, s: Stream, p: Progress, fields: seq<Written>, r: nat)
    requires p.at <= |s.bytes| && (forall i :: 0 <= i < |fields| ==> IsWritten(fields[i]))
    requires r <= |WriteFields(fields)| && p.total + |WriteFields(fields)| <= c.maxEntryBytes
    requires Ends(s, p.at, WriteFields(fields)[..r])
    ensures EntryFrom(c, s, p) == CutEntry(c, fields, r, p)
    decreases |fields|, 1
  {
    if r == 0 {
      EmptyEnds(c, s, p);
    } else if |Write(fields[0])| <= r {
      CutLaterField(c, s, p, fields, r);
    } else {
      CutThisField(c, s, p, fields, r);
    }
  }

  lemma CutThisField(c: Config, s: Stream, p: Progress, fields: seq<Written>, r: nat)
    requires fields != [] && p.at <= |s.bytes| && IsWritten(fields[0])
    requires 0 < r < |Write(fields[0])| && r <= |WriteFields(fields)| && p.total + |Write(fields[0])| <= c.maxEntryBytes
    requires Ends(s, p.at, WriteFields(fields)[..r])
    ensures EntryFrom(c, s, p) == CutEntry(c, fields, r, p)
  {
    hide LineAt, Write, WriteFields, IsWritten, Ends, CutField, NewCursor;
    FieldsHead(fields, r);
    CutFieldEnds(c, s, p, fields[0], r);
  }

  lemma {:induction false} CutLaterField(c: Config, s: Stream, p: Progress, fields: seq<Written>, r: nat)
    requires fields != [] && p.at <= |s.bytes| && (forall i :: 0 <= i < |fields| ==> IsWritten(fields[i]))
    requires 0 < r && |Write(fields[0])| <= r <= |WriteFields(fields)|
      && p.total + |WriteFields(fields)| <= c.maxEntryBytes
    requires Ends(s, p.at, WriteFields(fields)[..r])
    ensures EntryFrom(c, s, p) == CutEntry(c, fields, r, p)
    decreases |fields|, 0
  {
    hide *;
    var w, rest := fields[0], fields[1..];
    var q, m := Taken(c, p, w), r - |Write(w)|;
    FieldsHead(fields, r);
    EndsParts(s, p.at, Write(w), WriteFields(rest)[..m]);
    FieldReads(c, s, p, w);
    EntryStep(c, s, p, q);
    TakenMoves(c, p, w);
    CutEntryReads(c, s, q, rest, m);
    CutEntryGoesOn(c, fields, r, p);
  }

  lemma TakenMoves(c: Config, p: Progress, w: Written)
    ensures Taken(c, p, w).at == p.at + |Write(w)| && Taken(c, p, w).total == p.total + |Write(w)|
  {
  }

  lemma CutEntryGoesOn(c: Config, fields: seq<Written>, r: nat, p: Progress)
    requires fields != [] && 0 < r && |Write(fields[0])| <= r <= |WriteFields(fields)|
    ensures r - |Write(fields[0])| <= |WriteFields(fields[1..])|
    ensures CutEntry(c, fields, r, p) == CutEntry(c, fields[1..], r - |Write(fields[0])|, Taken(c, p, fields[0]))
  {
    hide Write, Taken;
  }

  // ----- the whole export -----

  lemma CutStarts(fields: seq<Written>, n: nat)
    requires n < |WriteEntry(fields)|
    ensures n <= |WriteFields(fields)| && WriteEntry(fields)[..n] == WriteFields(fields)[..n]
  {
  }

  /** The position a cut entry is read at does not matter for what is read. */
  lemma {:induction false} CutEntryShift(c: Config, fields: seq<Written>, r: nat, p: Progress, q: Progress)
    requires r <= |WriteFields(fields)| && p.fields == q.fields && p.cursor == q.cursor
    ensures var a, b := CutEntry(c, fields, r, p), CutEntry(c, fields, r, q);
            && (a == b || (a.Entry? && b.Entry? && a.fields == b.fields && a.cursor == b.cursor))
            && (a.Entry? ==> a.next == p.at + r)
    decreases |fields|
  {
    if r != 0 && r >= |Write(fields[0])| {
      CutEntryShift(c, fields[1..], r - |Write(fields[0])|, Taken(c, p, fields[0]), Taken(c, q, fields[0]));
    }
  }

  lemma CollectEnd(c: Config, s: Stream, i: nat)
    requires Ends(s, i, [])
    ensures Collect(c, s, i) == Collected([], true)
  {
    EmptyEnds(c, s, Start(i));
    hide LineAt;
  }

  lemma CutLastEntry(c: Config, s: Stream, i: nat, e: seq<Written>, n: nat)
    requires IsWrittenEntry(c, e) && n < |WriteEntry(e)| && Ends(s, i, WriteEntry(e)[..n])
    ensures n <= |WriteFields(e)|
    ensures Collect(c, s, i) == match CutEntry(c, e, n, Start(0))
                                case EndOfFile => Collected([], true)
                                case Failed(eof) => Collected([], eof)
                                case Entry(fields, cursor, _) => Collected([(fields, cursor)], true)
  {
    CutStarts(e, n);
    assert i <= |s.bytes| && n == |s.bytes| - i;
    CutEntryReads(c, s, Start(i), e, n);
    CutEntryShift(c, e, n, Start(i), Start(0));
    var read := CutEntry(c, e, n, Start(i));
    hide CutEntry, EntryFrom, WriteEntry, WriteFields;
    if read.Entry? {
      assert s.bytes[|s.bytes|..] == [];
      CollectEnd(c, s, |s.bytes|);
      CollectEntry(c, s, i, read.fields, read.cursor, |s.bytes|);
    }
  }

  lemma AllHead(entries: seq<seq<Written>>, n: nat)
    requires entries != [] && n <= |WriteAll(entries)|
    ensures WriteAll(entries) == WriteEntry(entries[0]) + WriteAll(entries[1..])
    ensures n <= |WriteEntry(entries[0])| ==> WriteAll(entries)[..n] == WriteEntry(entries[0])[..n]
    ensures |WriteEntry(entries[0])| <= n ==>
              WriteAll(entries)[..n] == WriteEntry(entries[0]) + WriteAll(entries[1..])[..n - |WriteEntry(entries[0])|]
  {
    PrefixOf(WriteEntry(entries[0]), WriteAll(entries[1..]), n);
  }

  lemma {:induction false} CutReads(c: Config, s: Stream, i: nat, entries: seq<seq<Written>>, n: nat)
    requires (forall k :: 0 <= k < |entries| ==> IsWrittenEntry(c, entries[k])) && n <= |WriteAll(entries)|
    requires i <= |s.bytes| && Ends(s, i, WriteAll(entries)[..n])
    ensures Collect(c, s, i) == CutAll(c, entries, n)
    decreases |entries|, 1
  {
    if entries == [] {
      CollectEnd(c, s, i);
    } else {
      CutMore(c, s, i, entries, n);
    }
  }

  lemma {:induction false} CutMore(c: Config, s: Stream, i: nat, entries: seq<seq<Written>>, n: nat)
    requires entries != [] && (forall k :: 0 <= k < |entries| ==> IsWrittenEntry(c, entries[k]))
      && n <= |WriteAll(entries)|
    requires i <= |s.bytes| && Ends(s, i, WriteAll(entries)[..n])
    ensures Collect(c, s, i) == CutAll(c, entries, n)
    decreases |entries|, 0
  {
    hide *;
    var e := entries[0];
    AllHead(entries, n);
    if |WriteEntry(e)| <= n {
      var m := n - |WriteEntry(e)|;
      EndsParts(s, i, WriteEntry(e), WriteAll(entries[1..])[..m]);
      AtEnds(s, i, WriteEntry(e));
      CollectStep(c, s, i, e);
      CutReads(c, s, i + |WriteEntry(e)|, entries[1..], m);
      CutWhole(c, entries, n);
    } else {
      CutLastEntry(c, s, i, e, n);
      CutPart(c, entries, n);
    }
  }

  lemma CutWhole(c: Config, entries: seq<seq<Written>>, n: nat)
    requires entries != [] && |WriteEntry(entries[0])| <= n <= |WriteAll(entries)|
    ensures n - |WriteEntry(entries[0])| <= |WriteAll(entries[1..])|
    ensures var rest := CutAll(c, entries[1..], n - |WriteEntry(entries[0])|);
            CutAll(c, entries, n) ==
            Collected([(ReadFields(entries[0]), CursorOf(c, entries[0], []))] + rest.entries, rest.clean)
  {
    hide WriteEntry, ReadFields, CursorOf;
  }

  lemma CutPart(c: Config, entries: seq<seq<Written>>, n: nat)
    requires entries != [] && n < |WriteEntry(entries[0])| && n <= |WriteAll(entries)|
    ensures n <= |WriteFields(entries[0])|
    ensures CutAll(c, entries, n) == match CutEntry(c, entries[0], n, Start(0))
                                     case EndOfFile => Collected([], true)
                                     case Failed(eof) => Collected([], eof)
                                     case Entry(fields, cursor, _) => Collected([(fields, cursor)], true)
  {
    hide CutEntry;
  }

  lemma AtEnds(s: Stream, i: nat, part: Bytes)
    requires At(s, i, part)
    ensures i + |part| <= |s.bytes|
  {
  }

  /** An export cut after any octet collects exactly this. */
  lemma CutExport(c: Config, entries: seq<seq<Written>>, n: nat)
    requires (forall k :: 0 <= k < |entries| ==> IsWrittenEntry(c, entries[k])) && n <= |WriteAll(entries)|
    ensures Collect(c, Stream(WriteAll(entries)[..n], false), 0) == CutAll(c, entries, n)
  {
    var s := Stream(WriteAll(entries)[..n], false);
    assert s.bytes[0..] == s.bytes;
    CutReads(c, s, 0, entries, n);
  }

  /** Entries written whole within the first `n` octets. */
  function Whole(entries: seq<seq<Written>>, n: nat): (k: nat)
    ensures k <= |entries|
  {
    if entries == [] || |WriteEntry(entries[0])| > n then 0 else 1 + Whole(entries[1..], n - |WriteEntry(entries[0])|)
  }

  lemma {:induction false} CutAllShape(c: Config, entries: seq<seq<Written>>, n: nat)
    requires n <= |WriteAll(entries)|
    ensures var k, got := Whole(entries, n), CutAll(c, entries, n).entries;
            k <= |got| <= k + 1 && got[..k] == Expected(c, entries[..k])
    decreases |entries|
  {
    if entries != [] && n >= |WriteEntry(entries[0])| {
      var rest, m := entries[1..], n - |WriteEntry(entries[0])|;
      CutAllShape(c, rest, m);
      hide WriteEntry, WriteAll, CursorOf, ReadFields;
      var k := Whole(entries, n);
      ExpectedHead(c, entries[..k]);
      assert entries[..k][1..] == rest[..k - 1];
      var got, tail := CutAll(c, entries, n).entries, CutAll(c, rest, m).entries;
      assert got[..k] == [got[0]] + tail[..k - 1];
    }
  }

  /** No cut loses or changes an entry written whole; at most one shortened entry follows them. */
  lemma WholeEntriesSurvive(c: Config, entries: seq<seq<Written>>, n: nat)
    requires (forall k :: 0 <= k < |entries| ==> IsWrittenEntry(c, entries[k])) && n <= |WriteAll(entries)|
    ensures var k, got := Whole(entries, n), Collect(c, Stream(WriteAll(entries)[..n], false), 0).entries;
            k <= |got| <= k + 1 && got[..k] == Expected(c, entries[..k])
  {
    CutExport(c, entries, n);
    CutAllShape(c, entries, n);
  }
}
