/**
 * The token bucket measured by raw clock readings: exactly when the bound between effective times
 * also holds between readings, although the clock may step back.
 */
module RawClock {
  import opened TokenBucket

  /** Grants whose raw reading lies within [s, t]. */
  function RawGrants(calls: seq<Call>, s: real, t: real): nat {
    if calls == [] then 0
    else
      var c := calls[|calls| - 1];
      RawGrants(calls[..|calls| - 1], s, t) + if c.granted && s <= c.reading <= t then 1 else 0
  }

  // ----- how far the clock steps back -----

  /** The largest distance of a reading behind the latest one before it. */
  function Setback(calls: seq<Call>): real {
    if calls == [] then 0.0
    else
      var c := calls[|calls| - 1];
      Later(Setback(calls[..|calls| - 1]), c.effective - c.reading)
  }

  lemma {:induction false} SetbackBounds(calls: seq<Call>, k: nat)
    ensures 0.0 <= Setback(calls)
    ensures k < |calls| ==> calls[k].effective <= calls[k].reading + Setback(calls)
  {
    if calls != [] {
      SetbackBounds(calls[..|calls| - 1], k);
    }
  }

  lemma {:induction false} SetbackOfPrefix(calls: seq<Call>, n: nat)
    requires n <= |calls|
    ensures Setback(calls[..n]) <= Setback(calls)
  {
    if n < |calls| {
      var front := calls[..|calls| - 1];
      SetbackOfPrefix(front, n);
      assert front[..n] == calls[..n];
    } else {
      assert calls[..n] == calls;
    }
  }

  /** No reading lies before the start or before an earlier reading. */
  ghost predicate NeverStepsBack(start: real, readings: seq<real>) {
    && (forall k :: 0 <= k < |readings| ==> start <= readings[k])
    && forall j, k :: 0 <= j < k < |readings| ==> readings[j] <= readings[k]
  }

  lemma SetbackOfRunStep(rate: real, start: real, readings: seq<real>)
    requires readings != []
    ensures var n := |readings| - 1;
            var before := Run(rate, start, readings[..n]);
            Setback(Run(rate, start, readings).calls) == Later(Setback(before.calls),
              Later(before.last, readings[n]) - readings[n])
  {
    var n := |readings| - 1;
    var before := Run(rate, start, readings[..n]);
    hide Level;
    var calls := Run(rate, start, readings).calls;
    assert calls[..|calls| - 1] == before.calls;
  }

  /** While it never steps back, the clock shows the latest reading. */
  lemma {:induction false} LastOfSteadyClock(rate: real, start: real, readings: seq<real>)
    requires NeverStepsBack(start, readings)
    ensures Run(rate, start, readings).last == if readings == [] then start else readings[|readings| - 1]
  {
    if readings != [] {
      LastOfSteadyClock(rate, start, readings[..|readings| - 1]);
      hide Level;
    }
  }

  /** The setback of a run is zero exactly when the readings never step back. */
  lemma {:induction false} NoSetbackIff(rate: real, start: real, readings: seq<real>)
    ensures Setback(Run(rate, start, readings).calls) == 0.0 <==> NeverStepsBack(start, readings)
  {
    if readings != [] {
      var n := |readings| - 1;
      var front := readings[..n];
      NoSetbackIff(rate, start, front);
      SetbackOfRunStep(rate, start, readings);
      SetbackBounds(Run(rate, start, front).calls, 0);
      NeverStepsBackFront(start, readings);
      hide Run, Setback;
      if NeverStepsBack(start, front) {
        LastOfSteadyClock(rate, start, front);
      }
      hide NeverStepsBack;
    }
  }

  lemma NeverStepsBackFront(start: real, readings: seq<real>)
    requires readings != []
    ensures var n := |readings| - 1;
            NeverStepsBack(start, readings) <==>
            NeverStepsBack(start, readings[..n]) && readings[n] >= if n == 0 then start else readings[n - 1]
  {
    var n := |readings| - 1;
    var front := readings[..n];
    if NeverStepsBack(start, front) && readings[n] >= (if n == 0 then start else readings[n - 1]) {
      forall j, k | 0 <= j < k < |readings|
        ensures readings[j] <= readings[k]
      {
        assert front[j] == readings[j];
        assert k < n ==> front[k] == readings[k];
        assert j == n - 1 || (j < n - 1 && front[n - 1] == readings[n - 1]);
      }
      forall k | 0 <= k < |readings|
        ensures start <= readings[k]
      {
        assert k < n ==> front[k] == readings[k];
        assert n > 0 ==> front[n - 1] == readings[n - 1];
      }
    }
  }

  // ----- raw windows inside effective ones -----

  predicate InRaw(c: Call, s: real, t: real) {
    c.granted && s <= c.reading <= t
  }

  predicate InEffective(c: Call, s: real, t: real) {
    c.granted && s <= c.effective <= t
  }

  lemma {:induction false} RawWithin(calls: seq<Call>, s: real, t: real, from: real, to: real)
    requires forall k: nat | k < |calls| :: InRaw(calls[k], s, t) ==> InEffective(calls[k], from, to)
    ensures RawGrants(calls, s, t) <= GrantsBetween(calls, from, to)
  {
    if calls != [] {
      var n := |calls| - 1;
      RawWithin(calls[..n], s, t, from, to);
      assert InRaw(calls[n], s, t) ==> InEffective(calls[n], from, to);
    }
  }

  /** A grant inside the effective window and outside the raw one makes the difference. */
  lemma {:induction false} RawStrictlyWithin(calls: seq<Call>, s: real, t: real, from: real, to: real, i: nat)
    requires forall k: nat | k < |calls| :: InRaw(calls[k], s, t) ==> InEffective(calls[k], from, to)
    requires i < |calls| && InEffective(calls[i], from, to) && !InRaw(calls[i], s, t)
    ensures RawGrants(calls, s, t) + 1 <= GrantsBetween(calls, from, to)
  {
    var n := |calls| - 1;
    assert InRaw(calls[n], s, t) ==> InEffective(calls[n], from, to);
    if i == n {
      RawWithin(calls[..n], s, t, from, to);
    } else {
      RawStrictlyWithin(calls[..n], s, t, from, to, i);
    }
  }

  /** Up to any setback the bound stretches by what that setback earns. */
  lemma RawBoundWithSetback(rate: real, start: real, readings: seq<real>, s: real, t: real)
    requires 0.0 <= rate && s <= t
    ensures var calls := Run(rate, start, readings).calls;
            RawGrants(calls, s, t) as real <= rate + Earn(rate)(t - s + Setback(calls))
  {
    hide Run, Setback, Earn, GrantsBetween, RawGrants;
    var st := Run(rate, start, readings);
    var d := Setback(st.calls);
    RunTracks(rate, start, readings);
    SetbackBounds(st.calls, 0);
    RunBound(rate, start, readings, s, t + d);
    assert t + d - s == t - s + d;
    forall k: nat | k < |st.calls| && InRaw(st.calls[k], s, t)
      ensures InEffective(st.calls[k], s, t + d)
    {
      SetbackBounds(st.calls, k);
    }
    hide Tracks;
    RawWithin(st.calls, s, t, s, t + d);
  }

  // ----- exactly when the raw bound holds -----

  lemma {:induction false} GrantsOfPrefix(calls: seq<Call>, m: nat, n: nat, j: nat)
    requires j <= m <= n <= |calls|
    ensures Grants(calls[..m], j) <= Grants(calls[..n], j)
    decreases n - m
  {
    if m < n {
      GrantsOfPrefix(calls, m, n - 1, j);
      assert calls[..n] == calls[..n - 1] + [calls[n - 1]];
      GrantsAppend(calls[..n - 1], calls[n - 1], j);
    }
  }

  /** A later grant at the same effective time shows the earlier call was granted too. */
  lemma EarlierCallGranted(rate: real, calls: seq<Call>, i: nat, n: nat)
    requires Decided(rate, Earn(rate), calls) && i <= n < |calls|
    requires calls[i].effective == calls[n].effective && calls[n].granted
    ensures calls[i].granted
  {
    var earn, e := Earn(rate), calls[n].effective;
    assert Conforms(rate, earn, calls[..n], e);
    hide Decided, Earn;
    forall j: nat | j < i
      ensures 1.0 <= Room(rate, earn, calls[..i], j, e)
    {
      GrantsOfPrefix(calls, i, n, j);
      assert 1.0 <= Room(rate, earn, calls[..n], j, e);
    }
    assert Conforms(rate, earn, calls[..i], e);
    DecidedAt(rate, earn, calls, i);
  }

  lemma DecidedAt(capacity: real, earn: real -> real, calls: seq<Call>, k: nat)
    requires Decided(capacity, earn, calls) && k < |calls|
    ensures calls[k].granted <==> Conforms(capacity, earn, calls[..k], calls[k].effective)
  {
  }

  /** Two grants at one effective time need a capacity of two. */
  lemma SecondGrantNeedsTwo(rate: real, calls: seq<Call>, i: nat, n: nat)
    requires 0.0 <= rate && Decided(rate, Earn(rate), calls) && i < n < |calls|
    requires calls[i].effective == calls[n].effective && calls[i].granted && calls[n].granted
    ensures 2.0 <= rate
  {
    var e := calls[n].effective;
    DecidedAt(rate, Earn(rate), calls, n);
    assert 1.0 <= Room(rate, Earn(rate), calls[..n], i, e);
    EarnOf(rate, 0.0);
    hide Decided, Conforms, Earn;
    GrantsOfPrefix(calls, i + 1, n, i);
    assert calls[..i + 1] == calls[..i] + [calls[i]];
    GrantsAppend(calls[..i], calls[i], i);
    assert e - calls[..n][i].effective == 0.0;
  }

  /** The first call at the effective time of call `n`; unless nothing moved since the start, it read that very time. */
  lemma {:induction false} FirstAtLevel(start: real, calls: seq<Call>, last: real, n: nat) returns (i: nat)
    requires Tracks(start, calls, last) && n < |calls|
    ensures i <= n && calls[i].effective == calls[n].effective
    ensures calls[i].reading == calls[n].effective || calls[n].effective == start
  {
    if n > 0 && calls[n - 1].effective == calls[n].effective {
      i := FirstAtLevel(start, calls, last, n - 1);
    } else {
      i := n;
    }
  }

  lemma EarnGrows(rate: real, a: real, b: real)
    requires 0.0 <= rate && 0.0 <= a <= b
    ensures 0.0 <= Earn(rate)(a) <= Earn(rate)(b)
  {
    hide Earn, Steady;
    EarnIsSteady(rate);
    Longer(Earn(rate), a, b);
  }

  lemma EarnAdds(rate: real, a: real, b: real)
    requires 0.0 <= rate
    ensures Earn(rate)(a + b) == Earn(rate)(a) + Earn(rate)(b)
  {
    hide Earn;
    EarnIsSteady(rate);
    assert Adds(Earn(rate), a, b);
  }

  /** Call `k` and everything before it, in its effective window. */
  lemma InRawIsEffective(start: real, calls: seq<Call>, last: real, n: nat, s: real, t: real)
    requires Tracks(start, calls, last) && Ordered(calls, last) && n == |calls| - 1
    ensures forall k: nat | k < |calls| :: InRaw(calls[k], s, t) ==> InEffective(calls[k], s, calls[n].effective)
    ensures calls[n].effective == start ==>
              forall k: nat | k < |calls| :: InRaw(calls[k], s, t) ==> InEffective(calls[k], start, start)
  {
    forall k: nat | k < |calls|
      ensures calls[k].reading <= calls[k].effective <= calls[n].effective && start <= calls[k].effective
    {
      EffectiveIsMaximum(start, calls, last, k);
    }
  }

  /** The newest call is granted inside the raw window, at an effective time beyond it. */
  lemma BeyondWindow(rate: real, start: real, readings: seq<real>, s: real, t: real, d: real)
    requires 0.0 <= rate && s <= t && readings != [] && (rate < 2.0 || Earn(rate)(d) <= 1.0)
    requires var calls := Run(rate, start, readings).calls;
             Setback(calls) <= d && |calls| == |readings| && InRaw(calls[|calls| - 1], s, t)
               && calls[|calls| - 1].effective > t
    ensures RawGrants(Run(rate, start, readings).calls, s, t) as real <= rate + Earn(rate)(t - s)
  {
    hide Run, Setback, Earn, GrantsBetween, RawGrants, Decided, Tracks, Ordered, Tightest;
    var st := Run(rate, start, readings);
    var n := |st.calls| - 1;
    var e := st.calls[n].effective;
    RunTracks(rate, start, readings);
    RunIsSound(rate, start, readings);
    InRawIsEffective(start, st.calls, st.last, n, s, t);
    EarnGrows(rate, 0.0, t - s);
    var i := FirstAtLevel(start, st.calls, st.last, n);
    if e == start {
      RawWithin(st.calls, s, t, e, e);
      RunBound(rate, start, readings, e, e);
      EarnOf(rate, e - e);
    } else {
      EarlierCallGranted(rate, st.calls, i, n);
      RawStrictlyWithin(st.calls, s, t, s, e, i);
      if rate < 2.0 {
        SecondGrantNeedsTwo(rate, st.calls, i, n);
      } else {
        RunBound(rate, start, readings, s, e);
        SetbackBounds(st.calls, n);
        EarnGrows(rate, e - s, t - s + d);
        EarnAdds(rate, t - s, d);
      }
    }
  }

  lemma WithinWindow(rate: real, start: real, readings: seq<real>, s: real, t: real)
    requires 0.0 <= rate && s <= t && readings != []
    requires var calls := Run(rate, start, readings).calls;
             |calls| == |readings| && InRaw(calls[|calls| - 1], s, t) && calls[|calls| - 1].effective <= t
    ensures RawGrants(Run(rate, start, readings).calls, s, t) as real <= rate + Earn(rate)(t - s)
  {
    hide Run, Earn, GrantsBetween, RawGrants, Decided, Tracks, Ordered, Tightest;
    var st := Run(rate, start, readings);
    var n := |st.calls| - 1;
    var e := st.calls[n].effective;
    RunTracks(rate, start, readings);
    RunIsSound(rate, start, readings);
    InRawIsEffective(start, st.calls, st.last, n, s, t);
    assert InEffective(st.calls[n], s, e);
    RawWithin(st.calls, s, t, s, e);
    RunBound(rate, start, readings, s, e);
    EarnGrows(rate, e - s, t - s);
  }

  lemma {:induction false} RawBoundHolds(rate: real, start: real, readings: seq<real>, s: real, t: real, d: real)
    requires 0.0 <= rate && s <= t && (rate < 2.0 || Earn(rate)(d) <= 1.0)
    requires Setback(Run(rate, start, readings).calls) <= d
    ensures RawGrants(Run(rate, start, readings).calls, s, t) as real <= rate + Earn(rate)(t - s)
  {
    hide Earn, Level, Setback;
    EarnGrows(rate, 0.0, t - s);
    RunTracks(rate, start, readings);
    if readings != [] {
      var n := |readings| - 1;
      var calls := Run(rate, start, readings).calls;
      if !InRaw(calls[n], s, t) {
        assert calls[..n] == Run(rate, start, readings[..n]).calls;
        SetbackOfPrefix(calls, n);
        RawBoundHolds(rate, start, readings[..n], s, t, d);
      } else if calls[n].effective <= t {
        WithinWindow(rate, start, readings, s, t);
      } else {
        BeyondWindow(rate, start, readings, s, t, d);
      }
    }
  }

  // ----- and exactly when it fails -----

  function Zeros(n: nat): seq<real> {
    seq(n, i => 0.0)
  }

  lemma StepCounts(rate: real, st: State, now: real, s: real, t: real)
    ensures var after := Step(rate, st, now);
            && RawGrants(after.calls, s, t) == RawGrants(st.calls, s, t) + (if 1.0 <= Level(rate, st, now)
            && s <= now <= t then 1 else 0)
            && Setback(after.calls) == Later(Setback(st.calls), Later(st.last, now) - now)
  {
    hide Level;
    var after := Step(rate, st, now).calls;
    assert after[..|after| - 1] == st.calls;
  }

  /** Asked at once, a full bucket grants its whole capacity. */
  lemma {:induction false} AfterZeros(rate: nat, n: nat, t: real)
    requires n <= rate && 0.0 <= t
    ensures var st := Run(rate as real, 0.0, Zeros(n));
            st.last == 0.0 && st.tokens == (rate - n) as real && RawGrants(st.calls, 0.0, t) == n
              && Setback(st.calls) == 0.0
  {
    if n > 0 {
      AfterZeros(rate, n - 1, t);
      assert Zeros(n) == Zeros(n - 1) + [0.0];
      RunStep(rate as real, 0.0, Zeros(n - 1), 0.0);
      StepCounts(rate as real, Run(rate as real, 0.0, Zeros(n - 1)), 0.0, 0.0, t);
      hide Run, RawGrants, Setback, Earn;
    }
  }

  /** A capacity spent at zero, two tokens earned, the clock set back by `g`. */
  function SteppedBack(rate: nat, w: real, g: real): seq<real> {
    Zeros(rate) + [w] + [w - g]
  }

  lemma SteppedBackBreaks(rate: nat, w: real, g: real)
    requires 2 <= rate && Earn(rate as real)(w) == 2.0 && 0.0 < g <= w && 1.0 < Earn(rate as real)(g)
    ensures var calls := Run(rate as real, 0.0, SteppedBack(rate, w, g)).calls;
            Setback(calls) == g && RawGrants(calls, 0.0, w - g) as real > rate as real + Earn(rate as real)(w - g - 0.0)
  {
    hide Run, RawGrants, Setback, Earn, Level, Step;
    var r, t := rate as real, w - g;
    AfterZeros(rate, rate, t);
    EarnAdds(r, w - g, g);
    assert w - g + g == w && w - g - 0.0 == w - g;
    var st := Run(r, 0.0, Zeros(rate));
    RunStep(r, 0.0, Zeros(rate), w);
    RunStep(r, 0.0, Zeros(rate) + [w], w - g);
    UpStep(r, st, w);
    StepCounts(r, st, w, 0.0, t);
    var up := Step(r, st, w);
    BackStep(r, up, w - g);
    StepCounts(r, up, w - g, 0.0, t);
  }

  lemma UpStep(r: real, st: State, w: real)
    requires st.last == 0.0 && st.tokens == 0.0 && 0.0 < w && Earn(r)(w) == 2.0 && 2.0 <= r
    ensures Level(r, st, w) == 2.0 && Step(r, st, w).last == w && Step(r, st, w).tokens == 1.0
  {
    hide Earn;
    assert w - st.last == w;
  }

  lemma BackStep(r: real, st: State, now: real)
    requires st.tokens == 1.0 && now <= st.last
    ensures Level(r, st, now) == 1.0
  {
  }

  /** The bound between raw readings, for one run and one window. */
  ghost predicate BoundAt(rate: nat, start: real, readings: seq<real>, s: real, t: real) {
    RawGrants(Run(rate as real, start, readings).calls, s, t) as real <= rate as real + Earn(rate as real)(t - s)
  }

  /** The bound between raw readings, for every run whose clock steps back by at most `d`. */
  ghost predicate RawBounded(rate: nat, d: real) {
    forall start, readings, s, t :: s <= t && Setback(Run(rate as real, start, readings).calls) <= d ==>
      BoundAt(rate, start, readings, s, t)
  }

  /**
   * Grants between any two raw readings stay within capacity + rate * (t - s), for every run whose
   * clock steps back by at most `d`, if and only if the rate is at most one or `d` is too short to
   * earn more than one token.
   */
  lemma RawBoundIff(rate: nat, d: real)
    requires 0.0 <= d
    ensures RawBounded(rate, d) <==> rate <= 1 || Earn(rate as real)(d) <= 1.0
  {
    hide Earn, Run, RawGrants, Setback;
    if rate <= 1 || Earn(rate as real)(d) <= 1.0 {
      ShortSetbackKeeps(rate, d);
    } else {
      LongSetbackBreaks(rate, d);
    }
  }

  lemma ShortSetbackKeeps(rate: nat, d: real)
    requires rate <= 1 || Earn(rate as real)(d) <= 1.0
    ensures RawBounded(rate, d)
  {
    hide Earn, Run, RawGrants, Setback;
    var r := rate as real;
    forall start, readings, s, t | s <= t && Setback(Run(r, start, readings).calls) <= d
      ensures BoundAt(rate, start, readings, s, t)
    {
      RawBoundHolds(r, start, readings, s, t, d);
    }
  }

  lemma LongSetbackBreaks(rate: nat, d: real)
    requires 2 <= rate && 1.0 < Earn(rate as real)(d) && 0.0 <= d
    ensures !RawBounded(rate, d)
  {
    hide Earn, Run, RawGrants, Setback, SteppedBack;
    var w := TwoTokens(rate as real);
    var g := if d <= w then d else w;
    EarnOf(rate as real, 0.0);
    SteppedBackBreaks(rate, w, g);
    assert !BoundAt(rate, 0.0, SteppedBack(rate, w, g), 0.0, w - g);
  }

  /** The time in which a rate earns two tokens. */
  lemma TwoTokens(r: real) returns (w: real)
    requires 0.0 < r
    ensures 0.0 < w && Earn(r)(w) == 2.0
  {
    w := 2.0 / r;
  }

  /** Without setback the raw bound is the bound: a steady clock needs no effective times. */
  lemma SteadyClockBound(rate: nat, start: real, readings: seq<real>, s: real, t: real)
    requires s <= t && NeverStepsBack(start, readings)
    ensures BoundAt(rate, start, readings, s, t)
  {
    hide Earn, Run, RawGrants, Setback;
    NoSetbackIff(rate as real, start, readings);
    EarnOf(rate as real, 0.0);
    RawBoundHolds(rate as real, start, readings, s, t, 0.0);
  }

  /** A bucket of two driven past the raw bound by its own calls: more than two grants at reading zero. */
  method StepBackWitness() returns (b: Bucket)
    ensures fresh(b) && b.Valid() && b.rate == b.capacity == 2.0 && b.start == 0.0 && b.readings == [0.0, 0.0, 1.0, 0.0]
    ensures RawGrants(b.calls, 0.0, 0.0) > 2
  {
    EarnOf(2.0, 1.0);
    EarnOf(2.0, 0.0);
    hide RawGrants, Run, Step, Level, Sound, Tracks, Conforms, Earn, Setback;
    SteppedBackBreaks(2, 1.0, 1.0);
    assert SteppedBack(2, 1.0, 1.0) == [0.0, 0.0, 1.0, 0.0];
    b := new Bucket(2, 0.0);
    var _ := b.Take(0.0);
    var _ := b.Take(0.0);
    var _ := b.Take(1.0);
    var _ := b.Take(0.0);
  }
}
