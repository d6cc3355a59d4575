/** RFC 3164 timestamps carry no year: resolution to the nearest one under a fixed source offset. */
module SourceTime {
  import opened Wrappers
  import Decimal
  import Text

  const DAY := 86_400
  const MIN_YEAR := -9999
  const MAX_YEAR := 9999

  // ----- proleptic Gregorian calendar -----

  predicate IsLeap(y: int) {
    y % 4 == 0 && (y % 100 != 0 || y % 400 == 0)
  }

  function DaysInYear(y: int): int {
    if IsLeap(y) then 366 else 365
  }

  /** Days from 0001-01-01 to the first day of year `y`. */
  function DaysBeforeYear(y: int): int {
    var z := y - 1;
    365 * z + z / 4 - z / 100 + z / 400
  }

  function DaysInMonth(y: int, m: int): int
    requires 1 <= m <= 12
  {
    if m == 2 then (if IsLeap(y) then 29 else 28) else if m == 4 || m == 6 || m == 9 || m == 11 then 30 else 31
  }

  function DaysBeforeMonth(y: int, m: int): int
    requires 1 <= m <= 13
  {
    if m == 1 then 0 else DaysBeforeMonth(y, m - 1) + DaysInMonth(y, m - 1)
  }

  /** The closed form counts exactly the days of each year. */
  lemma YearStep(y: int)
    ensures DaysBeforeYear(y + 1) == DaysBeforeYear(y) + DaysInYear(y)
  {
    Quotient(y - 1, 4);
    Quotient(y - 1, 100);
    Quotient(y - 1, 400);
    CenturiesAreMultiples(y);
    var four, hundred, fourHundred := y % 4 == 0, y % 100 == 0, y % 400 == 0;
    assert DaysBeforeYear(y + 1) - DaysBeforeYear(y)
           == 365 + (if four then 1 else 0) - (if hundred then 1 else 0) + (if fourHundred then 1 else 0);
  }

  lemma CenturiesAreMultiples(y: int)
    ensures y % 100 == 0 ==> y % 4 == 0
    ensures y % 400 == 0 ==> y % 100 == 0
  {
    Remainder(y, y / 100, 100);
    Remainder(y, y / 400, 400);
    MultipleOf(25 * (y / 100), 4);
    MultipleOf(4 * (y / 400), 100);
  }

  lemma Remainder(y: int, q: int, n: nat)
    requires (n == 100 || n == 400) && q == y / n
    ensures y % n == 0 ==> y == n * q
  {
  }

  lemma MultipleOf(k: int, n: nat)
    requires n == 4 || n == 100
    ensures (n * k) % n == 0
  {
  }

  lemma Quotient(z: int, n: nat)
    requires n == 4 || n == 100 || n == 400
    ensures (z + 1) / n == z / n + (if (z + 1) % n == 0 then 1 else 0)
  {
  }

  lemma MonthsOfYear(y: int)
    ensures DaysBeforeMonth(y, 13) == DaysInYear(y)
  {
    var leap := if IsLeap(y) then 1 else 0;
    hide IsLeap;
    assert DaysBeforeMonth(y, 2) == 31;
    assert DaysBeforeMonth(y, 4) == 90 + leap;
    assert DaysBeforeMonth(y, 6) == 151 + leap;
    assert DaysBeforeMonth(y, 8) == 212 + leap;
    assert DaysBeforeMonth(y, 10) == 273 + leap;
    assert DaysBeforeMonth(y, 12) == 334 + leap;
  }

  predicate ValidDate(y: int, m: int, d: int) {
    MIN_YEAR <= y <= MAX_YEAR && 1 <= m <= 12 && 1 <= d <= DaysInMonth(y, m)
  }

  /** Seconds of the local clock, counted from its own 1970-01-01. */
  function YearStart(y: int): int {
    (DaysBeforeYear(y) - DaysBeforeYear(1970)) * DAY
  }

  function LocalSeconds(y: int, m: int, d: int, time: int): int
    requires 1 <= m <= 12
  {
    YearStart(y) + (DaysBeforeMonth(y, m) + d - 1) * DAY + time
  }

  /** The year a local instant falls in. */
  function YearOf(local: int, y: int): (r: int)
    ensures YearStart(r) <= local < YearStart(r + 1)
    decreases if local < YearStart(y) then YearStart(y) - local else if local >= YearStart(y + 1) then
      local - YearStart(y) else 0
  {
    YearStep(y);
    YearStep(y - 1);
    if local < YearStart(y) then YearOf(local, y - 1)
    else if local >= YearStart(y + 1) then YearOf(local, y + 1)
    else y
  }

  // ----- the written form -----

  datatype Components = Components(month: int, day: nat, hour: nat, minute: nat, second: nat)

  function MonthOf(s: string): (r: Option<int>)
    ensures r.Some? ==> 1 <= r.value <= 12
  {
    if s == "Jan" then Some(1) else if s == "Feb" then Some(2) else if s == "Mar" then Some(3)
      else if s == "Apr" then Some(4)
    else if s == "May" then Some(5) else if s == "Jun" then Some(6) else if s == "Jul" then Some(7)
      else if s == "Aug" then Some(8)
    else if s == "Sep" then Some(9) else if s == "Oct" then Some(10) else if s == "Nov" then Some(11)
      else if s == "Dec" then Some(12)
    else None
  }

  /** A component is a trimmed unsigned octet. */
  function Component(s: string): (r: Option<nat>)
    ensures r.Some? ==> r.value <= 255
  {
    Decimal.Parse(Text.Trim(s), 255, true)
  }

  predicate IsAscii(s: string) {
    forall i :: 0 <= i < |s| ==> s[i] as int < 128
  }

  /**
   * "Mmm dd HH:MM:SS", by octet position; the separators are not looked at. Among 15 octets a
   * character outside ASCII always reaches into the month or a component, which then does not read.
   */
  function ParseComponents(s: string): (r: Option<Components>)
    ensures r.Some? ==> 1 <= r.value.month <= 12
  {
    if |s| != 15 || !IsAscii(s) then None
    else
      var month, day, hour, minute, second := MonthOf(s[..3]), Component(s[4..6]), Component(s[7..9]),
        Component(s[10..12]), Component(s[13..15]);
      if month.None? || day.None? || hour.None? || minute.None? || second.None? then None
      else Some(Components(month.value, day.value, hour.value, minute.value, second.value))
  }

  const MONTHS := ["Jan", "Feb", "Mar", "Apr", "May", "Jun", "Jul", "Aug", "Sep", "Oct", "Nov", "Dec"]

  function Digit(n: nat): (c: char)
    requires n < 10
    ensures '0' <= c <= '9' && c as int == 48 + n
  {
    (48 + n) as char
  }

  function TwoDigits(n: nat): string
    requires n < 100
  {
    [Digit(n / 10), Digit(n % 10)]
  }

  /** A day below ten is written after a space or a zero. */
  function PaddedDay(n: nat, space: bool): string
    requires n < 100
  {
    if space && n < 10 then [' ', Digit(n)] else TwoDigits(n)
  }

  predicate Writable(c: Components) {
    1 <= c.month <= 12 && c.day < 100 && c.hour < 100 && c.minute < 100 && c.second < 100
  }

  function WriteStamp(c: Components, space: bool): string
    requires Writable(c)
  {
    MONTHS[c.month - 1] + " " + PaddedDay(c.day, space) + " " + TwoDigits(c.hour) + ":" + TwoDigits(c.minute) + ":"
    + TwoDigits(c.second)
  }

  lemma VisibleTrims(s: string)
    requires s != "" && !Text.IsSpace(s[0]) && !Text.IsSpace(s[|s| - 1])
    ensures Text.Trim(s) == s
  {
  }

  lemma TwoDigitsRead(n: nat)
    requires n < 100
    ensures Component(TwoDigits(n)) == Some(n)
  {
    var t := TwoDigits(n);
    VisibleTrims(t);
    var codes := Decimal.TextCodes(t);
    assert codes[..1][..0] == [] && codes[..1][0] == codes[0];
    assert Decimal.Value(codes[..1]) == codes[0] - 48;
  }

  lemma PaddedDayReads(n: nat, space: bool)
    requires n < 100
    ensures Component(PaddedDay(n, space)) == Some(n)
  {
    if space && n < 10 {
      var t := [' ', Digit(n)];
      assert t[1..] == [Digit(n)];
      VisibleTrims([Digit(n)]);
      var codes := Decimal.TextCodes([Digit(n)]);
      assert codes[..0] == [];
      assert Decimal.Value(codes) == n;
    } else {
      TwoDigitsRead(n);
    }
  }

  lemma MonthReads(m: int)
    requires 1 <= m <= 12
    ensures |MONTHS[m - 1]| == 3 && MonthOf(MONTHS[m - 1]) == Some(m) && IsAscii(MONTHS[m - 1])
  {
  }

  lemma StampParts(month: string, day: string, hour: string, minute: string, second: string)
    requires |month| == 3 && |day| == |hour| == |minute| == |second| == 2
    requires IsAscii(month) && IsAscii(day) && IsAscii(hour) && IsAscii(minute) && IsAscii(second)
    ensures var s := month + " " + day + " " + hour + ":" + minute + ":" + second;
            && |s| == 15 && IsAscii(s) && s[..3] == month && s[4..6] == day && s[7..9] == hour && s[10..12] == minute
            && s[13..15] == second
  {
  }

  /** A written timestamp reads back field for field, with either padding of the day. */
  lemma StampRoundTrip(c: Components, space: bool)
    requires Writable(c)
    ensures ParseComponents(WriteStamp(c, space)) == Some(c)
  {
    hide MonthOf, Component, TwoDigits, PaddedDay;
    MonthReads(c.month);
    PaddedDayReads(c.day, space);
    TwoDigitsRead(c.hour);
    TwoDigitsRead(c.minute);
    TwoDigitsRead(c.second);
    TwoDigitsShape(c.hour);
    TwoDigitsShape(c.minute);
    TwoDigitsShape(c.second);
    PaddedDayShape(c.day, space);
    StampParts(MONTHS[c.month - 1], PaddedDay(c.day, space), TwoDigits(c.hour), TwoDigits(c.minute),
      TwoDigits(c.second));
  }

  lemma TwoDigitsShape(n: nat)
    requires n < 100
    ensures |TwoDigits(n)| == 2 && IsAscii(TwoDigits(n))
  {
  }

  lemma PaddedDayShape(n: nat, space: bool)
    requires n < 100
    ensures |PaddedDay(n, space)| == 2 && IsAscii(PaddedDay(n, space))
  {
  }

  predicate ValidTime(c: Components) {
    c.hour < 24 && c.minute < 60 && c.second < 60
  }

  function TimeOfDay(c: Components): int {
    c.hour * 3600 + c.minute * 60 + c.second
  }

  // ----- distance -----

  function Distance(a: int, b: int): nat {
    if a <= b then b - a else a - b
  }

  /** The instant these components name in year `y`, for a clock `offset` seconds ahead of UTC. */
  function Instant(c: Components, offset: int, y: int): int
    requires 1 <= c.month <= 12
  {
    LocalSeconds(y, c.month, c.day, TimeOfDay(c)) - offset
  }

  predicate Exists(c: Components, y: int) {
    ValidDate(y, c.month, c.day)
  }

  lemma {:induction false} MonthsAccumulate(y: int, m: int)
    requires 1 <= m <= 13
    ensures 28 * (m - 1) <= DaysBeforeMonth(y, m)
    ensures DaysBeforeMonth(y, m) + 28 * (13 - m) <= DaysBeforeMonth(y, 13)
    ensures m <= 12 ==> DaysBeforeMonth(y, m) + DaysInMonth(y, m) <= DaysBeforeMonth(y, 13)
    decreases 13 - m
  {
    if m < 13 {
      MonthsAccumulate(y, m + 1);
    }
    MonthsFromStart(y, m);
  }

  lemma {:induction false} MonthsFromStart(y: int, m: int)
    requires 1 <= m <= 13
    ensures 28 * (m - 1) <= DaysBeforeMonth(y, m)
  {
    if m > 1 {
      MonthsFromStart(y, m - 1);
    }
  }

  /** A date of year `y` lies inside that year; a leap day lies on its sixtieth day. */
  lemma InItsYear(c: Components, y: int)
    requires Exists(c, y) && ValidTime(c)
    ensures var k := LocalSeconds(y, c.month, c.day, TimeOfDay(c));
            && YearStart(y) <= k < YearStart(y + 1)
            && (c.month == 2 && c.day == 29 ==> IsLeap(y) && YearStart(y) + 59 * DAY <= k < YearStart(y) + 60 * DAY)
  {
    YearStep(y);
    MonthsOfYear(y);
    MonthsAccumulate(y, c.month);
    var days := DaysBeforeMonth(y, c.month) + c.day - 1;
    assert 0 <= days < DaysInYear(y);
    assert 0 <= TimeOfDay(c) < DAY;
    assert DaysBeforeMonth(y, 2) == 31;
  }

  lemma {:induction false} YearsApart(a: int, n: nat)
    ensures YearStart(a) + 365 * n * DAY <= YearStart(a + n) <= YearStart(a) + 366 * n * DAY
  {
    if n > 0 {
      YearsApart(a, n - 1);
      YearStep(a + n - 1);
      hide DaysBeforeYear;
    }
  }

  lemma LeapYearsApart(a: int, b: int)
    requires IsLeap(a) && IsLeap(b) && a < b
    ensures a + 4 <= b
  {
  }

  /** Outside February 29 a date that exists in one year exists in every representable one. */
  lemma ExistsElsewhere(c: Components, y: int, z: int)
    requires Exists(c, y) && !(c.month == 2 && c.day == 29) && MIN_YEAR <= z <= MAX_YEAR
    ensures Exists(c, z)
  {
  }

  function Local(c: Components, y: int): int
    requires 1 <= c.month <= 12
  {
    LocalSeconds(y, c.month, c.day, TimeOfDay(c))
  }

  /** An ordinary date two or more years away is beaten by the adjacent year on that side. */
  lemma AdjacentYearWins(c: Components, local: int, base: int, y: int)
    requires YearStart(base) <= local < YearStart(base + 1) && MIN_YEAR <= base <= MAX_YEAR
    requires Exists(c, y) && ValidTime(c) && !(c.month == 2 && c.day == 29) && (y <= base - 2 || base + 2 <= y)
    ensures var near := if y < base then base - 1 else base + 1;
            Exists(c, near) && Distance(Local(c, near), local) < Distance(Local(c, y), local)
  {
    var near := if y < base then base - 1 else base + 1;
    ExistsElsewhere(c, y, near);
    InItsYear(c, y);
    InItsYear(c, near);
    if y < base {
      YearsApart(y + 1, base - 1 - (y + 1));
    } else {
      YearsApart(base + 2, y - (base + 2));
    }
    hide YearStart, LocalSeconds;
  }

  /** A leap day found within a year of the ingest year is nearer than any other leap day. */
  lemma LeapDayWins(c: Components, local: int, base: int, near: int, y: int)
    requires YearStart(base) <= local < YearStart(base + 1) && base - 1 <= near <= base + 1
    requires Exists(c, near) && Exists(c, y) && ValidTime(c) && c.month == 2 && c.day == 29 && y != near
    ensures Distance(Local(c, near), local) < Distance(Local(c, y), local)
  {
    InItsYear(c, y);
    InItsYear(c, near);
    if y < near {
      LeapYearsApart(y, near);
      LaterLeapDay(c, local, base, near, y);
    } else {
      LeapYearsApart(near, y);
      EarlierLeapDay(c, local, base, near, y);
    }
  }

  lemma LaterLeapDay(c: Components, local: int, base: int, near: int, y: int)
    requires YearStart(base) <= local < YearStart(base + 1) && base - 1 <= near <= base + 1 && y + 4 <= near
      && 1 <= c.month <= 12
    requires YearStart(y) + 59 * DAY <= Local(c, y) < YearStart(y) + 60 * DAY
    requires YearStart(near) + 59 * DAY <= Local(c, near) < YearStart(near) + 60 * DAY
    ensures Distance(Local(c, near), local) < Distance(Local(c, y), local)
  {
    hide YearStart, Local;
    YearsApart(y, base - y);
    YearsApart(base, 1);
    if near == base - 1 {
      YearsApart(near, 1);
    }
  }

  lemma EarlierLeapDay(c: Components, local: int, base: int, near: int, y: int)
    requires YearStart(base) <= local < YearStart(base + 1) && base - 1 <= near <= base + 1 && near + 4 <= y
      && 1 <= c.month <= 12
    requires YearStart(y) + 59 * DAY <= Local(c, y) < YearStart(y) + 60 * DAY
    requires YearStart(near) + 59 * DAY <= Local(c, near) < YearStart(near) + 60 * DAY
    ensures Distance(Local(c, near), local) < Distance(Local(c, y), local)
  {
    hide YearStart, Local;
    YearsApart(base + 1, y - (base + 1));
    YearsApart(base, 1);
    if near == base - 1 {
      YearsApart(near, 2);
    }
  }

  // ----- resolution -----

  datatype Error = InvalidComponents | InvalidIngestTime | InvalidTime | Unresolvable

  /** The instant the calendar library can represent under this offset. */
  predicate Representable(local: int) {
    YearStart(MIN_YEAR) <= local < YearStart(MAX_YEAR + 1)
  }

  predicate Near(c: Components, base: int, y: int) {
    base - 1 <= y <= base + 1 && Exists(c, y)
  }

  ghost predicate SomeNear(c: Components, base: int) {
    exists y :: Near(c, base, y)
  }

  /** No representable year gives a nearer instant, and no earlier one an equally near one. */
  predicate Beats(c: Components, offset: int, ingest: int, best: int, y: int)
    requires 1 <= c.month <= 12
  {
    var mine, theirs := Distance(Instant(c, offset, best), ingest), Distance(Instant(c, offset, y), ingest);
    mine < theirs || (mine == theirs && best <= y)
  }

  /** `t` is the instant of these components in the nearest representable year, the earlier of two equally near. */
  ghost predicate IsNearest(c: Components, offset: int, ingest: int, t: int) {
    1 <= c.month <= 12 && exists best :: IsNearestYear(c, offset, ingest, best) && t == Instant(c, offset, best)
  }

  ghost predicate IsNearestYear(c: Components, offset: int, ingest: int, best: int)
    requires 1 <= c.month <= 12
  {
    Exists(c, best) && forall y :: Exists(c, y) ==> Beats(c, offset, ingest, best, y)
  }

  lemma NearestOfThree(c: Components, offset: int, ingest: int, base: int, best: int)
    requires YearStart(base) <= ingest + offset < YearStart(base + 1) && MIN_YEAR <= base <= MAX_YEAR
    requires ValidTime(c) && Near(c, base, best)
    requires forall y :: Near(c, base, y) ==> Beats(c, offset, ingest, best, y)
    ensures IsNearest(c, offset, ingest, Instant(c, offset, best))
  {
    hide YearStart, LocalSeconds, Beats;
    forall y | Exists(c, y)
      ensures Beats(c, offset, ingest, best, y)
    {
      if !Near(c, base, y) {
        FarYearLoses(c, offset, ingest, base, best, y);
      }
    }
    assert IsNearestYear(c, offset, ingest, best);
  }

  lemma FarYearLoses(c: Components, offset: int, ingest: int, base: int, best: int, y: int)
    requires YearStart(base) <= ingest + offset < YearStart(base + 1) && MIN_YEAR <= base <= MAX_YEAR
    requires ValidTime(c) && Near(c, base, best) && Exists(c, y) && !Near(c, base, y)
    requires forall z :: Near(c, base, z) ==> Beats(c, offset, ingest, best, z)
    ensures Beats(c, offset, ingest, best, y)
  {
    var local := ingest + offset;
    if c.month == 2 && c.day == 29 {
      LeapDayWins(c, local, base, best, y);
    } else {
      AdjacentYearWins(c, local, base, y);
      assert Near(c, base, if y < base then base - 1 else base + 1);
    }
    hide YearStart, LocalSeconds;
  }

  /**
   * Three candidate years, the nearest kept: the answer is the nearest of all representable years,
   * leap days included; without an answer none of the three years has the date.
   */
  method ResolveNearestYear(value: string, ingest: int, offset: int) returns (r: Result<int, Error>)
    ensures r.Ok? ==> ParseComponents(value).Some? && IsNearest(ParseComponents(value).value, offset, ingest, r.value)
    ensures r == Err(InvalidComponents) <==> ParseComponents(value).None?
    ensures r == Err(InvalidIngestTime) <==>
      ParseComponents(value).Some? && !(Representable(ingest) && Representable(ingest + offset))
    ensures ParseComponents(value).Some? && Representable(ingest) && Representable(ingest + offset) ==>
              var c, base := ParseComponents(value).value, YearOf(ingest + offset, 1970);
              && (r == Err(Unresolvable) <==> !SomeNear(c, base))
              && (r == Err(InvalidTime) <==> !ValidTime(c) && SomeNear(c, base))
  {
    hide *;
    var parsed := ParseComponents(value);
    if parsed.None? {
      return Err(InvalidComponents);
    }
    var c := parsed.value;
    if !Representable(ingest) || !Representable(ingest + offset) {
      return Err(InvalidIngestTime);
    }
    var base := YearOf(ingest + offset, 1970);
    RepresentableYear(ingest + offset, base);
    ghost var chosen;
    r, chosen := NearestCandidate(c, ingest, offset, base);
    if r.Ok? {
      NearestOfThree(c, offset, ingest, base, chosen);
    }
  }

  /** The loop over the three years around `base`. */
  method NearestCandidate(
      c: Components, ingest: int, offset: int, base: int)
    returns (r: Result<int, Error>, ghost chosen: int)
    requires 1 <= c.month <= 12
    ensures r.Ok? ==> ValidTime(c) && Near(c, base, chosen) && r.value == Instant(c, offset, chosen)
    ensures r.Ok? ==> forall y :: Near(c, base, y) ==> Beats(c, offset, ingest, chosen, y)
    ensures r == Err(Unresolvable) <==> !SomeNear(c, base)
    ensures r == Err(InvalidTime) <==> !ValidTime(c) && SomeNear(c, base)
    ensures r.Err? ==> r.error == Unresolvable || r.error == InvalidTime
  {
    hide Instant, Exists, Distance, ValidTime;
    var best: Option<(nat, int)> := None;
    chosen := base;
    for year := base - 1 to base + 2
      invariant best.None? ==> forall y :: Near(c, base, y) ==> year <= y
      invariant best.Some? ==> ValidTime(c) && Near(c, base, chosen)
      invariant best.Some? ==> best.value == (Distance(Instant(c, offset, chosen), ingest), Instant(c, offset, chosen))
      invariant best.Some? ==>
        chosen < year && forall y :: Near(c, base, y) && y < year ==> Beats(c, offset, ingest, chosen, y)
    {
      if !Exists(c, year) {
        continue;
      }
      assert Near(c, base, year);
      if !ValidTime(c) {
        return Err(InvalidTime), base;
      }
      var candidate := Instant(c, offset, year);
      var distance := Distance(candidate, ingest);
      if best.None? || distance < best.value.0 {
        best := Some((distance, candidate));
        chosen := year;
      }
    }
    if best.None? {
      return Err(Unresolvable), base;
    }
    return Ok(best.value.1), chosen;
  }

  lemma RepresentableYear(local: int, base: int)
    requires Representable(local) && YearStart(base) <= local < YearStart(base + 1)
    ensures MIN_YEAR <= base <= MAX_YEAR
  {
    YearsInOrder(base + 1, MIN_YEAR);
    YearsInOrder(MAX_YEAR + 1, base);
    hide YearStart;
  }

  lemma YearsInOrder(a: int, b: int)
    ensures a <= b ==> YearStart(a) <= YearStart(b)
  {
    if a <= b {
      YearsApart(a, b - a);
    }
  }
}
