/** Whole RFC 5424 lines: PRI, version, header tokens, structured data and message. */
module Rfc5424Line {
  import opened Wrappers
  import opened Rfc5424
  import Decimal

  // ----- the parser -----

  function IndexOf(s: string, c: char): (r: Option<nat>)
    ensures r.Some? ==> r.value < |s| && s[r.value] == c && forall i :: 0 <= i < r.value ==> s[i] != c
    ensures r.None? ==> c !in s
  {
    if s == "" then None
    else if s[0] == c then Some(0)
    else match IndexOf(s[1..], c)
      case None => assert s == [s[0]] + s[1..]; None
      case Some(i) => Some(i + 1)
  }

  /** PRI is one to three digits, at most 191. */
  function ParsePri(s: string): Result<(nat, string), Error> {
    if s == "" || s[0] != '<' then Err(Malformed)
    else
      var rest := s[1..];
      match IndexOf(rest, '>')
      case None => Err(Malformed)
      case Some(end) =>
        var digits := rest[..end];
        if |digits| > 3 then Err(Malformed)
        else match Decimal.Parse(digits, 191, false)
          case None => Err(Malformed)
          case Some(pri) => Ok((pri, rest[end + 1..]))
  }

  function TakeToken(s: string): Result<(string, string), Error> {
    match IndexOf(s, ' ')
    case None => Err(Malformed)
    case Some(end) => if end == 0 then Err(Malformed) else Ok((s[..end], s[end + 1..]))
  }

  /** The nil value of a header field is absence. */
  datatype Value = Nil | Present(text: string)

  function TokenValue(s: string): Value {
    if s == "-" then Nil else Present(s)
  }

  datatype Parsed = Parsed(
    pri: nat, facility: nat, severity: nat, version: nat, timestamp: Value, hostname: Value, appName: Value,
    procId: Value, msgId: Value,
    structuredData: Value, message: string, candidate: Option<string>, partial: bool)

  /** `isTimestamp` is the calendar library's RFC 3339 check. */
  function Parse(isTimestamp: string -> bool, text: string): Result<Parsed, Error> {
    var (pri, r0) :- ParsePri(text);
    var (versionText, r1) :- TakeToken(r0);
    match Decimal.Parse(versionText, 65535, true)
    case None => Err(Malformed)
    case Some(version) =>
      if version != 1 then Err(UnsupportedVersion)
      else
        var (timestamp, r2) :- TakeToken(r1);
        var (hostname, r3) :- TakeToken(r2);
        var (appName, r4) :- TakeToken(r3);
        var (procId, r5) :- TakeToken(r4);
        var (msgId, r6) :- TakeToken(r5);
        var (sd, message) :- Split(r6);
        if timestamp != "-" && !isTimestamp(timestamp) then Err(InvalidTimestamp)
        else Ok(FieldsOf(Line(pri, timestamp, hostname, appName, procId, msgId, sd, Some(message))))
  }

  // ----- lines -----

  datatype Line = Line(pri: nat, timestamp: string, hostname: string, appName: string, procId: string, msgId: string,
    sd: string, message: Option<string>)

  function FieldsOf(l: Line): Parsed {
    Parsed(l.pri, l.pri / 8, l.pri % 8, 1, TokenValue(l.timestamp), TokenValue(l.hostname), TokenValue(l.appName),
      TokenValue(l.procId),
           TokenValue(l.msgId), TokenValue(l.sd), if l.message.Some? then l.message.value else "",
           if l.timestamp == "-" then None else Some(l.timestamp), l.timestamp == "-")
  }

  predicate IsToken(s: string) {
    s != "" && ' ' !in s
  }

  /** A line section 6 of RFC 5424 allows, with free-form header tokens. */
  ghost predicate ValidLine(isTimestamp: string -> bool, l: Line) {
    && l.pri <= 191 && IsToken(l.timestamp) && (l.timestamp == "-" || isTimestamp(l.timestamp))
    && IsToken(l.hostname) && IsToken(l.appName) && IsToken(l.procId) && IsToken(l.msgId) && IsStructuredData(l.sd)
  }

  function Spaced(token: string, rest: string): string {
    token + " " + rest
  }

  function Tail(l: Line): string {
    match l.message
    case None => l.sd
    case Some(m) => l.sd + " " + m
  }

  function HeaderAndTail(l: Line): string {
    Spaced(l.timestamp, Spaced(l.hostname, Spaced(l.appName, Spaced(l.procId, Spaced(l.msgId, Tail(l))))))
  }

  function Print(l: Line): string {
    "<" + Decimal.Text(l.pri) + ">" + Spaced("1", HeaderAndTail(l))
  }

  lemma {:induction false} IndexOfFirst(s: string, c: char, i: nat)
    requires i < |s| && s[i] == c && forall j :: 0 <= j < i ==> s[j] != c
    ensures IndexOf(s, c) == Some(i)
  {
    assert s[i] in s;
  }

  lemma TakeSpaced(token: string, rest: string)
    requires IsToken(token)
    ensures TakeToken(Spaced(token, rest)) == Ok((token, rest))
  {
    var s := Spaced(token, rest);
    forall j | 0 <= j < |token|
      ensures s[j] != ' '
    {
      assert s[j] == token[j];
    }
    IndexOfFirst(s, ' ', |token|);
    assert s[..|token|] == token && s[|token| + 1..] == rest;
  }

  lemma PriSpellingReads(digits: string, pri: nat, rest: string)
    requires |digits| <= 3 && Decimal.Parse(digits, 191, false) == Some(pri)
    ensures ParsePri("<" + digits + ">" + rest) == Ok((pri, rest))
  {
    var s := "<" + digits + ">" + rest;
    assert s[1..] == digits + ">" + rest;
    forall j | 0 <= j < |digits|
      ensures s[1..][j] != '>'
    {
      assert s[1..][j] == digits[j];
    }
    IndexOfFirst(s[1..], '>', |digits|);
    assert s[1..][..|digits|] == digits && s[1..][|digits| + 1..] == rest;
  }

  lemma PriReads(pri: nat)
    requires pri <= 191
    ensures |Decimal.Text(pri)| <= 3 && Decimal.Parse(Decimal.Text(pri), 191, false) == Some(pri)
  {
    assert Decimal.Pow10(3) == 1000;
    Decimal.CodesLength(pri, 3);
    Decimal.ParseOfText(pri, 191, false);
  }

  lemma VersionReads()
    ensures Decimal.Parse("1", 65535, true) == Some(1) && IsToken("1")
  {
    assert Decimal.TextCodes("1")[..0] == [];
  }

  lemma HeaderReads(l: Line)
    requires IsToken(l.timestamp) && IsToken(l.hostname) && IsToken(l.appName) && IsToken(l.procId) && IsToken(l.msgId)
    ensures var r6 := Tail(l);
            var r5 := Spaced(l.msgId, r6);
            var r4 := Spaced(l.procId, r5);
            var r3 := Spaced(l.appName, r4);
            var r2 := Spaced(l.hostname, r3);
            && TakeToken(HeaderAndTail(l)) == Ok((l.timestamp, r2)) && TakeToken(r2) == Ok((l.hostname, r3))
            && TakeToken(r3) == Ok((l.appName, r4)) && TakeToken(r4) == Ok((l.procId, r5))
            && TakeToken(r5) == Ok((l.msgId, r6))
  {
    hide TakeToken, Tail, IsToken;
    var r6 := Tail(l);
    var r5 := Spaced(l.msgId, r6);
    var r4 := Spaced(l.procId, r5);
    var r3 := Spaced(l.appName, r4);
    var r2 := Spaced(l.hostname, r3);
    TakeSpaced(l.timestamp, r2);
    TakeSpaced(l.hostname, r3);
    TakeSpaced(l.appName, r4);
    TakeSpaced(l.procId, r5);
    TakeSpaced(l.msgId, r6);
  }

  /** The value shows `written`, or its absence when nil was written. */
  predicate ShowsToken(v: Value, written: string) {
    match v
    case Nil => written == "-"
    case Present(text) => text == written != "-"
  }

  /** The parsed event shows the written line, field by field. */
  predicate Shows(p: Parsed, l: Line) {
    && p.pri == l.pri == 8 * p.facility + p.severity && p.severity < 8 && p.version == 1
    && ShowsToken(p.timestamp, l.timestamp) && ShowsToken(p.hostname, l.hostname) && ShowsToken(p.appName, l.appName)
    && ShowsToken(p.procId, l.procId) && ShowsToken(p.msgId, l.msgId) && ShowsToken(p.structuredData, l.sd)
    && p.message == (match l.message case None => "" case Some(m) => m)
    && (p.partial <==> l.timestamp == "-") && p.candidate == (if p.partial then None else Some(l.timestamp))
  }

  /** Round trip: every valid line, with or without a message, parses back to exactly its fields. */
  lemma LineRoundTrip(isTimestamp: string -> bool, l: Line)
    requires ValidLine(isTimestamp, l)
    ensures Parse(isTimestamp, Print(l)).Ok? && Shows(Parse(isTimestamp, Print(l)).value, l)
  {
    hide Parse, Print, ValidLine, Shows;
    ParsesToFields(isTimestamp, l);
    FieldsShow(l);
  }

  lemma FieldsShow(l: Line)
    ensures Shows(FieldsOf(l), l)
  {
  }

  lemma ParsesToFields(isTimestamp: string -> bool, l: Line)
    requires ValidLine(isTimestamp, l)
    ensures Parse(isTimestamp, Print(l)) == Ok(FieldsOf(l))
  {
    PriReads(l.pri);
    VersionReads();
    hide ParsePri, Decimal.Parse, Decimal.Text, HeaderAndTail, Parse, FieldsOf;
    WrittenParses(isTimestamp, Print(l), Decimal.Text(l.pri), "1", l);
  }

  /** The text of a line, under any spelling of its PRI and of version 1. */
  ghost predicate Written(isTimestamp: string -> bool, text: string, digits: string, version: string, l: Line) {
    && ValidLine(isTimestamp, l)
    && |digits| <= 3 && Decimal.Parse(digits, 191, false) == Some(l.pri)
    && IsToken(version) && Decimal.Parse(version, 65535, true) == Some(1)
    && text == "<" + digits + ">" + Spaced(version, HeaderAndTail(l))
  }

  /** Every written line, however its PRI and version are spelled, parses to its fields. */
  lemma WrittenParses(isTimestamp: string -> bool, text: string, digits: string, version: string, l: Line)
    requires Written(isTimestamp, text, digits, version, l)
    ensures Parse(isTimestamp, text) == Ok(FieldsOf(l))
  {
    PriSpellingReads(digits, l.pri, Spaced(version, HeaderAndTail(l)));
    TakeSpaced(version, HeaderAndTail(l));
    HeaderReads(l);
    var message := if l.message.Some? then l.message.value else "";
    assert Joined(Tail(l), l.sd, message);
    SplitIff(Tail(l), l.sd, message);
    hide TakeToken, ParsePri, Split, Decimal.Parse, Decimal.Text, Spaced, Tail, IsStructuredData;
  }

  // ----- spellings of version 1 -----

  function Unsigned(s: string): string {
    if |s| > 0 && s[0] == '+' then s[1..] else s
  }

  /** Zeros and a final one. */
  predicate PaddedOne(digits: string) {
    && |digits| > 0 && digits[|digits| - 1] == '1'
    && forall i :: 0 <= i < |digits| - 1 ==> digits[i] == '0'
  }

  lemma {:induction false} ZeroIff(codes: seq<int>)
    requires Decimal.AllDigits(codes)
    ensures Decimal.Value(codes) == 0 <==> forall i :: 0 <= i < |codes| ==> codes[i] == 48
  {
    if codes != [] {
      ZeroIff(codes[..|codes| - 1]);
    }
  }

  lemma OneIff(digits: string)
    requires Decimal.IsNumeral(digits)
    ensures Decimal.Value(Decimal.TextCodes(digits)) == 1 <==> PaddedOne(digits)
  {
    var codes := Decimal.TextCodes(digits);
    var n := |codes| - 1;
    ZeroIff(codes[..n]);
    assert forall i :: 0 <= i < n ==> codes[..n][i] == digits[i] as int;
    assert codes[n] == digits[n] as int;
  }

  lemma PaddedOneIsNumeral(digits: string)
    requires PaddedOne(digits)
    ensures Decimal.IsNumeral(digits)
  {
    forall i | 0 <= i < |digits|
      ensures '0' <= digits[i] <= '9'
    {
      if i < |digits| - 1 {
        assert digits[i] == '0';
      }
    }
  }

  lemma NumeralIsToken(version: string)
    requires Decimal.IsNumeral(Unsigned(version))
    ensures IsToken(version)
  {
    var sign := |version| - |Unsigned(version)|;
    forall i | 0 <= i < |version|
      ensures version[i] != ' '
    {
      if sign <= i {
        assert version[i] == Unsigned(version)[i - sign];
      }
    }
  }

  /** The version field is read as a number: version 1 is any padded one, with or without a plus sign. */
  lemma VersionIsOneIff(version: string)
    ensures IsToken(version) && Decimal.Parse(version, 65535, true) == Some(1) <==> PaddedOne(Unsigned(version))
  {
    hide PaddedOne, IsToken, Decimal.IsNumeral, Decimal.Value, Decimal.TextCodes;
    var digits := Unsigned(version);
    if PaddedOne(digits) {
      PaddedOneIsNumeral(digits);
    }
    if Decimal.IsNumeral(digits) {
      OneIff(digits);
      NumeralIsToken(version);
    }
  }

  // ----- what parses is a line -----

  lemma TakenIsSpaced(s: string)
    requires TakeToken(s).Ok?
    ensures IsToken(TakeToken(s).value.0) && s == Spaced(TakeToken(s).value.0, TakeToken(s).value.1)
  {
    var end := IndexOf(s, ' ').value;
    assert s == s[..end] + [s[end]] + s[end + 1..];
  }

  lemma PriIsWritten(s: string) returns (digits: string)
    requires ParsePri(s).Ok?
    ensures ParsePri(s).value.0 <= 191 && 1 <= |digits| <= 3
      && Decimal.Parse(digits, 191, false) == Some(ParsePri(s).value.0)
    ensures s == "<" + digits + ">" + ParsePri(s).value.1
  {
    var end := IndexOf(s[1..], '>').value;
    digits := s[1..][..end];
    assert s == "<" + digits + ">" + s[1..][end + 1..];
  }

  /**
   * Whatever parses was written as a line: the PRI digits and a numeral for version 1 (leading zeros
   * and a plus sign included), the five header tokens, structured data and the message.
   */
  lemma ParsedIsWritten(isTimestamp: string -> bool, text: string) returns (digits: string, version: string, l: Line)
    requires Parse(isTimestamp, text).Ok?
    ensures Written(isTimestamp, text, digits, version, l)
    ensures Parse(isTimestamp, text).value == FieldsOf(l) && Shows(FieldsOf(l), l)
  {
    hide Shows, TokenValue, TakeToken, ParsePri, Split, Decimal.Parse, IsStructuredData, Spaced, IsToken;
    digits := PriIsWritten(text);
    var r0 := ParsePri(text).value.1;
    var r1 := TakeToken(r0).value.1;
    version := TakeToken(r0).value.0;
    var (timestamp, r2) := TakeToken(r1).value;
    var (hostname, r3) := TakeToken(r2).value;
    var (appName, r4) := TakeToken(r3).value;
    var (procId, r5) := TakeToken(r4).value;
    var (msgId, r6) := TakeToken(r5).value;
    var (sd, message) := Split(r6).value;
    TakenIsSpaced(r0);
    TakenIsSpaced(r1);
    TakenIsSpaced(r2);
    TakenIsSpaced(r3);
    TakenIsSpaced(r4);
    TakenIsSpaced(r5);
    SplitIff(r6, sd, message);
    l := Line(ParsePri(text).value.0, timestamp, hostname, appName, procId, msgId, sd, if r6 == sd then None
      else Some(message));
    assert Tail(l) == r6;
    FieldsShow(l);
  }

  /** The parser accepts exactly the written lines, under every spelling of PRI and version, each with its fields. */
  lemma ParsesIffWritten(isTimestamp: string -> bool, text: string, p: Parsed)
    ensures Parse(isTimestamp, text) == Ok(p) <==>
            exists digits, version, l :: Written(isTimestamp, text, digits, version, l) && p == FieldsOf(l)
  {
    hide Parse, Written, FieldsOf;
    if Parse(isTimestamp, text) == Ok(p) {
      var digits, version, l := ParsedIsWritten(isTimestamp, text);
      assert Written(isTimestamp, text, digits, version, l) && p == FieldsOf(l);
    }
    if digits, version, l :| Written(isTimestamp, text, digits, version, l) && p == FieldsOf(l) {
      WrittenParses(isTimestamp, text, digits, version, l);
    }
  }
}
