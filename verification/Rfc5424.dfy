/** RFC 5424 syslog lines: header, structured data and message. */
module Rfc5424 {
  import opened Wrappers

  datatype Error = Malformed | UnsupportedVersion | InvalidTimestamp

  // ----- structured data: the scanner -----

  /** From inside an element, the position after its closing bracket. */
  function ElementEnd(s: string, i: nat, inQuotes: bool, escaped: bool): (r: Option<nat>)
    requires i <= |s|
    ensures r.Some? ==> i < r.value <= |s|
    decreases |s| - i
  {
    if i == |s| then None
    else if inQuotes then
      if escaped then ElementEnd(s, i + 1, true, false)
      else if s[i] == '\\' then ElementEnd(s, i + 1, true, true)
      else ElementEnd(s, i + 1, s[i] != '"', false)
    else if s[i] == '"' then ElementEnd(s, i + 1, true, false)
    else if s[i] == ']' then Some(i + 1)
    else ElementEnd(s, i + 1, false, false)
  }

  /** The position after the last of the elements that start at `i`. */
  function ElementsEnd(s: string, i: nat): (r: Option<nat>)
    requires i <= |s|
    ensures r.Some? ==> i <= r.value <= |s|
    decreases |s| - i
  {
    if i < |s| && s[i] == '[' then
      match ElementEnd(s, i + 1, false, false)
      case None => None
      case Some(j) => ElementsEnd(s, j)
    else Some(i)
  }

  /** What follows the structured data must be nothing, or a space and the message. */
  function Remainder(sd: string, rest: string): Result<(string, string), Error> {
    if rest == "" then Ok((sd, ""))
    else if rest[0] == ' ' then Ok((sd, rest[1..]))
    else Err(Malformed)
  }

  function Split(s: string): Result<(string, string), Error> {
    if s != "" && s[0] == '-' then Remainder("-", s[1..])
    else if s == "" || s[0] != '[' then Err(Malformed)
    else match ElementsEnd(s, 0)
      case None => Err(Malformed)
      case Some(n) => Remainder(s[..n], s[n..])
  }

  method SplitStructuredData(s: string) returns (r: Result<(string, string), Error>)
    ensures r == Split(s)
  {
    if s != "" && s[0] == '-' {
      var rest := s[1..];
      if rest == "" {
        return Ok(("-", ""));
      }
      return if rest[0] == ' ' then Ok(("-", rest[1..])) else Err(Malformed);
    }
    if s == "" || s[0] != '[' {
      return Err(Malformed);
    }
    var index: nat := 0;
    while index < |s| && s[index] == '['
      invariant index <= |s| && ElementsEnd(s, 0) == ElementsEnd(s, index)
    {
      ghost var open := index + 1;
      index := index + 1;
      var inQuotes, escaped, closed := false, false, false;
      while index < |s|
        invariant open <= index <= |s| && !closed && (escaped ==> inQuotes)
        invariant ElementEnd(s, open, false, false) == ElementEnd(s, index, inQuotes, escaped)
      {
        var c := s[index];
        if inQuotes {
          if escaped {
            escaped := false;
          } else if c == '\\' {
            escaped := true;
          } else if c == '"' {
            inQuotes := false;
          }
        } else if c == '"' {
          inQuotes := true;
        } else if c == ']' {
          index := index + 1;
          closed := true;
          break;
        }
        index := index + 1;
      }
      if !closed || inQuotes || escaped {
        return Err(Malformed);
      }
    }
    var sd, rest := s[..index], s[index..];
    if rest == "" {
      return Ok((sd, ""));
    }
    return if rest[0] == ' ' then Ok((sd, rest[1..])) else Err(Malformed);
  }

  // ----- structured data: the grammar -----

  /** One character of a quoted value, possibly escaped by a backslash. */
  datatype Unit = Raw(c: char) | Escaped(c: char)

  datatype Piece = Plain(c: char) | Quoted(body: seq<Unit>)

  predicate ValidUnits(body: seq<Unit>) {
    forall i :: 0 <= i < |body| ==> body[i].Raw? ==> body[i].c != '"' && body[i].c != '\\'
  }

  predicate ValidPieces(pieces: seq<Piece>) {
    forall i :: 0 <= i < |pieces| ==> match pieces[i]
      case Plain(c) => c != '"' && c != ']'
      case Quoted(body) => ValidUnits(body)
  }

  function PrintUnits(body: seq<Unit>): string {
    if body == [] then "" else (match body[0] case Raw(c) => [c] case Escaped(c) => ['\\', c]) + PrintUnits(body[1..])
  }

  function PrintPieces(pieces: seq<Piece>): string {
    if pieces == [] then ""
    else (match pieces[0] case Plain(c) => [c] case Quoted(body) =>
      ['"'] + PrintUnits(body) + ['"']) + PrintPieces(pieces[1..])
  }

  /** Bracketed elements; the brackets of quoted values do not count. */
  function PrintElements(elements: seq<seq<Piece>>): string {
    if elements == [] then "" else ['['] + PrintPieces(elements[0]) + [']'] + PrintElements(elements[1..])
  }

  predicate ValidElements(elements: seq<seq<Piece>>) {
    forall i :: 0 <= i < |elements| ==> ValidPieces(elements[i])
  }

  predicate At(s: string, i: nat, part: string) {
    i + |part| <= |s| && s[i..i + |part|] == part
  }

  lemma Parts(s: string, i: nat, a: string, b: string)
    requires At(s, i, a + b)
    ensures At(s, i, a) && At(s, i + |a|, b)
  {
    assert s[i..i + |a + b|][..|a|] == a && s[i..i + |a + b|][|a|..] == b;
  }

  lemma First(s: string, i: nat, c: char, b: string)
    requires At(s, i, [c] + b)
    ensures i < |s| && s[i] == c && At(s, i + 1, b)
  {
    Parts(s, i, [c], b);
    assert s[i] == s[i..i + 1][0];
  }

  lemma Enclosed(s: string, i: nat, a: char, inner: string, b: char, rest: string)
    requires At(s, i, [a] + inner + [b] + rest)
    ensures i < |s| && s[i] == a && At(s, i + 1, inner)
    ensures i + 1 + |inner| < |s| && s[i + 1 + |inner|] == b && At(s, i + 2 + |inner|, rest)
  {
    hide At;
    assert [a] + inner + [b] + rest == [a] + (inner + ([b] + rest));
    First(s, i, a, inner + ([b] + rest));
    Parts(s, i + 1, inner, [b] + rest);
    First(s, i + 1 + |inner|, b, rest);
  }

  lemma Sliced(s: string, i: nat, k: nat, end: nat)
    requires i < k <= end <= |s|
    ensures s[i..end] == [s[i]] + s[i + 1..k] + s[k..end]
  {
  }

  lemma {:induction false} UnitsScan(s: string, i: nat, body: seq<Unit>)
    requires ValidUnits(body) && At(s, i, PrintUnits(body))
    ensures ElementEnd(s, i, true, false) == ElementEnd(s, i + |PrintUnits(body)|, true, false)
    decreases |body|
  {
    if body != [] {
      var rest := PrintUnits(body[1..]);
      match body[0]
      case Raw(c) =>
        First(s, i, c, rest);
        UnitsScan(s, i + 1, body[1..]);
      case Escaped(c) =>
        assert ['\\', c] + rest == ['\\'] + ([c] + rest);
        First(s, i, '\\', [c] + rest);
        First(s, i + 1, c, rest);
        UnitsScan(s, i + 2, body[1..]);
    }
  }

  lemma {:induction false} PiecesScan(s: string, i: nat, pieces: seq<Piece>)
    requires ValidPieces(pieces) && At(s, i, PrintPieces(pieces))
    ensures ElementEnd(s, i, false, false) == ElementEnd(s, i + |PrintPieces(pieces)|, false, false)
    decreases |pieces|
  {
    hide At;
    if pieces != [] {
      var rest := PrintPieces(pieces[1..]);
      match pieces[0]
      case Plain(c) =>
        First(s, i, c, rest);
        PiecesScan(s, i + 1, pieces[1..]);
      case Quoted(body) =>
        var inner := PrintUnits(body);
        Enclosed(s, i, '"', inner, '"', rest);
        UnitsScan(s, i + 1, body);
        PiecesScan(s, i + 2 + |inner|, pieces[1..]);
    }
  }

  lemma {:induction false} ElementsScan(s: string, i: nat, elements: seq<seq<Piece>>)
    requires ValidElements(elements) && At(s, i, PrintElements(elements))
    ensures ElementsEnd(s, i) == ElementsEnd(s, i + |PrintElements(elements)|)
    decreases |elements|
  {
    hide At, PrintPieces;
    if elements != [] {
      var inner, rest := PrintPieces(elements[0]), PrintElements(elements[1..]);
      Enclosed(s, i, '[', inner, ']', rest);
      PiecesScan(s, i + 1, elements[0]);
      assert ElementEnd(s, i + 1, false, false) == Some(i + 2 + |inner|);
      ElementsScan(s, i + 2 + |inner|, elements[1..]);
    }
  }

  // ----- and back -----

  lemma {:induction false} UnitsRead(s: string, i: nat) returns (body: seq<Unit>, k: nat)
    requires i <= |s| && ElementEnd(s, i, true, false).Some?
    ensures i < k <= |s| && ValidUnits(body) && s[i..k] == PrintUnits(body) + ['"']
    ensures ElementEnd(s, i, true, false) == ElementEnd(s, k, false, false)
    decreases |s| - i
  {
    if s[i] == '"' {
      body, k := [], i + 1;
    } else if s[i] == '\\' {
      var rest;
      rest, k := UnitsRead(s, i + 2);
      body := [Escaped(s[i + 1])] + rest;
      assert body[1..] == rest;
      assert s[i..k] == [s[i], s[i + 1]] + s[i + 2..k];
    } else {
      var rest;
      rest, k := UnitsRead(s, i + 1);
      body := [Raw(s[i])] + rest;
      assert body[1..] == rest;
      assert s[i..k] == [s[i]] + s[i + 1..k];
    }
  }

  lemma {:induction false} PiecesRead(s: string, i: nat) returns (pieces: seq<Piece>)
    requires i <= |s| && ElementEnd(s, i, false, false).Some?
    ensures ValidPieces(pieces) && s[i..ElementEnd(s, i, false, false).value] == PrintPieces(pieces) + [']']
    decreases |s| - i
  {
    var end := ElementEnd(s, i, false, false).value;
    if s[i] == ']' {
      pieces := [];
    } else if s[i] == '"' {
      var body, k := UnitsRead(s, i + 1);
      var rest := PiecesRead(s, k);
      pieces := [Quoted(body)] + rest;
      assert pieces[1..] == rest;
      Sliced(s, i, k, end);
      assert ['"'] + (PrintUnits(body) + ['"']) == ['"'] + PrintUnits(body) + ['"'];
    } else {
      var rest := PiecesRead(s, i + 1);
      pieces := [Plain(s[i])] + rest;
      assert pieces[1..] == rest;
      assert s[i..end] == [s[i]] + s[i + 1..end];
    }
  }

  lemma {:induction false} ElementsRead(s: string, i: nat) returns (elements: seq<seq<Piece>>)
    requires i <= |s| && ElementsEnd(s, i).Some?
    ensures ValidElements(elements) && s[i..ElementsEnd(s, i).value] == PrintElements(elements)
    ensures i < |s| && s[i] == '[' ==> elements != []
    decreases |s| - i
  {
    hide ValidPieces, PrintPieces, ElementEnd;
    if i < |s| && s[i] == '[' {
      var j := ElementEnd(s, i + 1, false, false).value;
      var end := ElementsEnd(s, i).value;
      var pieces := PiecesRead(s, i + 1);
      var rest := ElementsRead(s, j);
      elements := [pieces] + rest;
      assert elements[1..] == rest;
      Sliced(s, i, j, end);
      assert ['['] + (PrintPieces(pieces) + [']']) == ['['] + PrintPieces(pieces) + [']'];
    } else {
      elements := [];
    }
  }

  /** Written structured data: the nil value, or one or more complete elements. */
  ghost predicate IsStructuredData(sd: string) {
    sd == "-" || exists elements :: elements != [] && ValidElements(elements) && PrintElements(elements) == sd
  }

  /** A line's tail is its structured data, alone or followed by a space and the message. */
  predicate Joined(s: string, sd: string, message: string) {
    (s == sd && message == "") || s == sd + " " + message
  }

  lemma JoinedSplits(s: string, sd: string, message: string)
    requires Joined(s, sd, message)
    ensures sd <= s && Remainder(sd, s[|sd|..]) == Ok((sd, message))
  {
    if s != sd {
      assert s[|sd|..] == " " + message;
    }
  }

  lemma ElementsSplit(s: string, elements: seq<seq<Piece>>, message: string)
    requires elements != [] && ValidElements(elements) && Joined(s, PrintElements(elements), message)
    ensures Split(s) == Ok((PrintElements(elements), message))
  {
    var sd := PrintElements(elements);
    JoinedSplits(s, sd, message);
    assert At(s, 0, sd);
    ElementsScan(s, 0, elements);
    assert ElementsEnd(s, |sd|) == Some(|sd|) by {
      assert |s| > |sd| ==> s[|sd|] == (sd + " " + message)[|sd|];
    }
    assert sd[0] == '[' && s[0] == sd[0];
  }

  /**
   * The splitter accepts exactly structured data with its optional message, and cuts after the last
   * complete element: never inside a quoted value, whatever brackets or escapes it holds.
   */
  lemma SplitIff(s: string, sd: string, message: string)
    ensures Split(s) == Ok((sd, message)) <==> IsStructuredData(sd) && Joined(s, sd, message)
  {
    if Split(s) == Ok((sd, message)) {
      SplitIsJoined(s);
    }
    if IsStructuredData(sd) && Joined(s, sd, message) {
      if sd == "-" {
        JoinedSplits(s, sd, message);
        assert s[0] == sd[0];
      } else {
        var elements :| elements != [] && ValidElements(elements) && PrintElements(elements) == sd;
        ElementsSplit(s, elements, message);
      }
    }
  }

  lemma SplitIsJoined(s: string)
    requires Split(s).Ok?
    ensures IsStructuredData(Split(s).value.0) && Joined(s, Split(s).value.0, Split(s).value.1)
  {
    var n := if s[0] == '-' then 1 else ElementsEnd(s, 0).value;
    assert s == s[..n] + s[n..];
    assert s[n..] != "" ==> s[n..] == [s[n..][0]] + s[n..][1..];
    if s[0] == '-' {
      assert s[..1] == "-";
    } else {
      var elements := ElementsRead(s, 0);
      assert s[0..n] == s[..n];
    }
  }

  // ----- the elements of section 6.3 of RFC 5424 -----

  datatype Param = Param(name: string, value: string)

  datatype Element = Element(id: string, params: seq<Param>)

  /** SD-NAME: no quote, bracket, equals sign or space. */
  predicate IsName(s: string) {
    s != "" && forall i :: 0 <= i < |s| ==> s[i] != '"' && s[i] != ']' && s[i] != '=' && s[i] != ' '
  }

  predicate IsElement(e: Element) {
    IsName(e.id) && forall i :: 0 <= i < |e.params| ==> IsName(e.params[i].name)
  }

  /** Quote, backslash and closing bracket are escaped inside a value. */
  function EscapeValue(value: string): (body: seq<Unit>)
    ensures ValidUnits(body)
  {
    seq(|value|, i requires 0 <= i < |value| =>
      if value[i] == '"' || value[i] == '\\' || value[i] == ']' then Escaped(value[i]) else Raw(value[i]))
  }

  function ValueOf(body: seq<Unit>): string {
    seq(|body|, i requires 0 <= i < |body| => body[i].c)
  }

  function PlainPieces(s: string): seq<Piece> {
    seq(|s|, i requires 0 <= i < |s| => Plain(s[i]))
  }

  function ParamPieces(params: seq<Param>): seq<Piece> {
    if params == [] then []
    else [Plain(' ')] + PlainPieces(params[0].name) + [Plain('='),
      Quoted(EscapeValue(params[0].value))] + ParamPieces(params[1..])
  }

  function PiecesOf(e: Element): seq<Piece> {
    PlainPieces(e.id) + ParamPieces(e.params)
  }

  lemma {:induction false} ParamPiecesValid(params: seq<Param>)
    requires forall i :: 0 <= i < |params| ==> IsName(params[i].name)
    ensures ValidPieces(ParamPieces(params))
  {
    if params != [] {
      ParamPiecesValid(params[1..]);
    }
  }

  /** Elements with any parameter values at all are split off whole, and each value survives its escaping. */
  lemma ElementsOfValuesSplit(elements: seq<Element>, message: string, value: string)
    requires elements != [] && forall i :: 0 <= i < |elements| ==> IsElement(elements[i])
    ensures var sd := PrintElements(seq(|elements|, i requires 0 <= i < |elements| => PiecesOf(elements[i])));
            Split(sd + " " + message) == Ok((sd, message)) && Split(sd) == Ok((sd, ""))
    ensures ValueOf(EscapeValue(value)) == value
  {
    var pieces := seq(|elements|, i requires 0 <= i < |elements| => PiecesOf(elements[i]));
    forall i | 0 <= i < |pieces|
      ensures ValidPieces(pieces[i])
    {
      assert IsElement(elements[i]);
      ParamPiecesValid(elements[i].params);
    }
    var sd := PrintElements(pieces);
    ElementsSplit(sd + " " + message, pieces, message);
    ElementsSplit(sd, pieces, "");
  }
}
