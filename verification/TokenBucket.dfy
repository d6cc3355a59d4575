/**
 * The admission token bucket. Clock readings are inputs and token counts are reals; the source
 * computes the same formula in float64.
 */
module TokenBucket {

  /**
   * One call of a bucket's history: the clock reading, the latest reading seen so far (the
   * `effective` time, which a stalled or backward clock does not move) and the decision.
   */
  datatype Call = Call(reading: real, effective: real, granted: bool)

  /** Tokens earned over a duration. */
  function Earn(rate: real): real -> real {
    (d: real) => d * rate
  }

  ghost predicate Adds(earn: real -> real, a: real, b: real) {
    && earn(a + b) == earn(a) + earn(b)
    && (0.0 <= a ==> 0.0 <= earn(a))
  }

  /** All that the bound needs of earning: it is additive, and never negative over elapsed time. */
  ghost predicate Steady(earn: real -> real) {
    forall a, b :: Adds(earn, a, b)
  }

  lemma EarnIsSteady(rate: real)
    requires 0.0 <= rate
    ensures Steady(Earn(rate))
  {
    forall a, b
      ensures Adds(Earn(rate), a, b)
    {
      assert (a + b) * rate == a * rate + b * rate;
    }
  }

  /** Grants among the calls from `i` on. */
  function Grants(calls: seq<Call>, i: nat): nat
    requires i <= |calls|
    decreases |calls| - i
  {
    if i == |calls| then 0
    else (if calls[i].granted then 1 else 0) + Grants(calls, i + 1)
  }

  lemma {:induction false} GrantsAppend(calls: seq<Call>, c: Call, i: nat)
    requires i <= |calls|
    ensures Grants(calls + [c], i) == Grants(calls, i) + if c.granted then 1 else 0
    decreases |calls| - i
  {
    if i < |calls| {
      GrantsAppend(calls, c, i + 1);
      assert (calls + [c])[i] == calls[i];
    }
  }

  /** Room left at time `now` in the window that opens with call `i`. */
  function Room(capacity: real, earn: real -> real, calls: seq<Call>, i: nat, now: real): real
    requires i < |calls|
  {
    capacity + earn(now - calls[i].effective) - Grants(calls, i) as real
  }

  /** One more grant at `now` keeps every window that ends at `now` within capacity + rate * length. */
  ghost predicate Conforms(capacity: real, earn: real -> real, calls: seq<Call>, now: real) {
    1.0 <= capacity
    && forall i: nat | i < |calls| :: 1.0 <= Room(capacity, earn, calls, i, now)
  }

  /** `tokens` is the least room over all windows that end at `now`, including the empty one. */
  ghost predicate Tightest(capacity: real, earn: real -> real, calls: seq<Call>, now: real, tokens: real) {
    && tokens <= capacity
    && (forall i: nat | i < |calls| :: tokens <= Room(capacity, earn, calls, i, now))
    && (tokens == capacity || exists i: nat | i < |calls| :: tokens == Room(capacity, earn, calls, i, now))
  }

  ghost predicate Ordered(calls: seq<Call>, last: real) {
    && (forall i: nat, j: nat | i < j < |calls| :: calls[i].effective <= calls[j].effective)
    && (forall i: nat | i < |calls| :: calls[i].effective <= last)
  }

  /** Every call of the history was decided by the rule that Take establishes. */
  ghost predicate Decided(capacity: real, earn: real -> real, calls: seq<Call>) {
    forall k: nat | k < |calls| :: calls[k].granted <==> Conforms(capacity, earn, calls[..k], calls[k].effective)
  }

  // ----- one call, and every run of calls -----

  /** A bucket's counter, clock and history. */
  datatype State = State(calls: seq<Call>, last: real, tokens: real)

  function Later(a: real, b: real): real {
    if a < b then b else a
  }

  function Level(rate: real, st: State, now: real): real {
    if st.last < now then
      var refilled := st.tokens + Earn(rate)(now - st.last);
      if refilled > rate then rate else refilled
    else st.tokens
  }

  function Step(rate: real, st: State, now: real): State {
    var level := Level(rate, st, now);
    var granted := 1.0 <= level;
    var last := Later(st.last, now);
    State(st.calls + [Call(now, last, granted)], last, if granted then level - 1.0 else level)
  }

  /** A bucket created full at `start` and asked at these readings. */
  function Run(rate: real, start: real, readings: seq<real>): State {
    if readings == [] then State([], start, rate)
    else Step(rate, Run(rate, start, readings[..|readings| - 1]), readings[|readings| - 1])
  }

  class Bucket {
    const rate: real
    const capacity: real
    var tokens: real
    var last: real
    ghost const start: real
    ghost var readings: seq<real>
    ghost var calls: seq<Call>

    ghost function Now(): State
      reads this
    {
      State(calls, last, tokens)
    }

    /** The bucket is where its readings took it; so its history is sound, and its times are running maxima. */
    ghost predicate Valid()
      reads this
    {
      && 0.0 <= rate && capacity == rate && Now() == Run(rate, start, readings)
      && Sound(rate, Earn(rate), Now()) && Tracks(start, calls, last)
    }

    constructor (rate: nat, now: real)
      ensures Valid() && this.rate == rate as real && start == now && readings == []
    {
      this.rate := rate as real;
      capacity := rate as real;
      tokens := rate as real;
      last := now;
      start := now;
      readings := [];
      calls := [];
    }

    /**
     * One admission decision: granted exactly when the grant leaves every window ending here within
     * capacity + rate * length, so the bucket is neither too generous nor too strict.
     */
    method Take(now: real) returns (granted: bool)
      requires Valid()
      modifies this
      ensures Valid() && readings == old(readings) + [now]
      ensures Now() == Step(rate, old(Now()), now)
      ensures last == Later(old(last), now) && 0.0 <= tokens <= capacity
      ensures granted <==> Conforms(capacity, Earn(rate), old(calls), last)
      ensures calls == old(calls) + [Call(now, last, granted)]
    {
      hide Sound, Tracks, Conforms, Earn, Run;
      ghost var before := Now();
      StepKeepsSound(rate, before, now);
      StepTracks(rate, start, before, now);
      RunStep(rate, start, readings, now);
      var elapsed := now - last;
      if elapsed > 0.0 {
        var earned := elapsed * rate;
        EarnOf(rate, elapsed);
        tokens := tokens + earned;
        if tokens > capacity {
          tokens := capacity;
        }
        last := now;
      }
      assert tokens == Level(rate, before, now) && last == Later(before.last, now);
      hide Level;
      granted := !(tokens < 1.0);
      if granted {
        tokens := tokens - 1.0;
      }
      calls := calls + [Call(now, last, granted)];
      readings := readings + [now];
    }
  }

  /** The effective time before call `k`. */
  function Before(start: real, calls: seq<Call>, k: nat): real
    requires k <= |calls|
  {
    if k == 0 then start else calls[k - 1].effective
  }

  /** Each effective time is the later of the one before it and the reading; the first before it is `start`. */
  ghost predicate Tracks(start: real, calls: seq<Call>, last: real) {
    && last == Before(start, calls, |calls|)
    && forall k: nat | k < |calls| :: calls[k].effective == Later(Before(start, calls, k), calls[k].reading)
  }

  lemma StepTracks(rate: real, start: real, st: State, now: real)
    requires Tracks(start, st.calls, st.last)
    ensures Tracks(start, Step(rate, st, now).calls, Step(rate, st, now).last)
  {
    hide Level;
    var after := Step(rate, st, now).calls;
    forall k: nat | k < |after|
      ensures after[k].effective == Later(Before(start, after, k), after[k].reading)
    {
      assert k > 0 ==> after[k - 1] == st.calls[k - 1];
      assert k < |st.calls| ==> after[k] == st.calls[k];
    }
  }

  lemma {:induction false} RunTracks(rate: real, start: real, readings: seq<real>)
    ensures var st := Run(rate, start, readings);
            && Tracks(start, st.calls, st.last) && |st.calls| == |readings|
            && forall k :: 0 <= k < |readings| ==> st.calls[k].reading == readings[k]
  {
    if readings != [] {
      var n := |readings| - 1;
      RunTracks(rate, start, readings[..n]);
      StepTracks(rate, start, Run(rate, start, readings[..n]), readings[n]);
      hide Tracks, Level;
    }
  }

  /** So an effective time is the running maximum of the start and the readings so far. */
  lemma {:induction false} EffectiveIsMaximum(start: real, calls: seq<Call>, last: real, k: nat)
    requires Tracks(start, calls, last) && k < |calls|
    ensures start <= calls[k].effective && forall j: nat | j <= k :: calls[j].reading <= calls[k].effective
    ensures calls[k].effective == start || exists j: nat | j <= k :: calls[j].reading == calls[k].effective
  {
    if k > 0 {
      EffectiveIsMaximum(start, calls, last, k - 1);
    }
  }

  lemma RunStep(rate: real, start: real, readings: seq<real>, now: real)
    ensures Run(rate, start, readings + [now]) == Step(rate, Run(rate, start, readings), now)
  {
    assert (readings + [now])[..|readings|] == readings;
  }

  /** What a bucket's counter says about its history. */
  ghost predicate Sound(capacity: real, earn: real -> real, st: State) {
    && 0.0 <= st.tokens <= capacity && Ordered(st.calls, st.last)
    && Tightest(capacity, earn, st.calls, st.last, st.tokens) && Decided(capacity, earn, st.calls)
  }

  lemma LevelIsTightest(rate: real, st: State, now: real)
    requires 0.0 <= rate && 0.0 <= st.tokens <= rate && Tightest(rate, Earn(rate), st.calls, st.last, st.tokens)
    ensures 0.0 <= Level(rate, st, now) <= rate
    ensures Tightest(rate, Earn(rate), st.calls, Later(st.last, now), Level(rate, st, now))
  {
    hide Steady, Tightest, Earn;
    if st.last < now {
      EarnIsSteady(rate);
      Refill(rate, Earn(rate), st.calls, st.last, now, st.tokens);
    }
  }

  lemma StepKeepsSound(rate: real, st: State, now: real)
    requires 0.0 <= rate && Sound(rate, Earn(rate), st)
    ensures Sound(rate, Earn(rate), Step(rate, st, now)) && 0.0 <= Step(rate, st, now).tokens <= rate
    ensures 1.0 <= Level(rate, st, now) <==> Conforms(rate, Earn(rate), st.calls, Later(st.last, now))
  {
    hide Ordered, Decided, Tightest, Steady, Conforms, Earn, Level;
    var at, level := Later(st.last, now), Level(rate, st, now);
    var earn, granted := Earn(rate), 1.0 <= level;
    EarnIsSteady(rate);
    LevelIsTightest(rate, st, now);
    TightestDecides(rate, earn, st.calls, at, level);
    Append(rate, earn, st.calls, now, at, level, granted);
    OrderedAppend(st.calls, st.last, at, now, granted);
    DecidedAppend(rate, earn, st.calls, Call(now, at, granted));
  }

  lemma {:induction false} RunIsSound(rate: real, start: real, readings: seq<real>)
    requires 0.0 <= rate
    ensures Sound(rate, Earn(rate), Run(rate, start, readings))
  {
    if readings != [] {
      RunIsSound(rate, start, readings[..|readings| - 1]);
      StepKeepsSound(rate, Run(rate, start, readings[..|readings| - 1]), readings[|readings| - 1]);
      hide Sound, Step;
    }
  }

  lemma EarnOf(rate: real, d: real)
    ensures Earn(rate)(d) == d * rate
  {
  }

  lemma OrderedAppend(calls: seq<Call>, last: real, now: real, reading: real, granted: bool)
    requires Ordered(calls, last) && last <= now
    ensures Ordered(calls + [Call(reading, now, granted)], now)
  {
  }

  lemma TightestDecides(capacity: real, earn: real -> real, calls: seq<Call>, now: real, tokens: real)
    requires Tightest(capacity, earn, calls, now, tokens)
    ensures Conforms(capacity, earn, calls, now) <==> 1.0 <= tokens
  {
  }

  lemma Refill(capacity: real, earn: real -> real, calls: seq<Call>, from: real, to: real, tokens: real)
    requires Steady(earn) && from <= to
    requires Tightest(capacity, earn, calls, from, tokens)
    ensures 0.0 <= earn(to - from)
    ensures var refilled := tokens + earn(to - from);
            Tightest(capacity, earn, calls, to, if refilled > capacity then capacity else refilled)
  {
    var gain := earn(to - from);
    assert Adds(earn, to - from, 0.0);
    forall i: nat | i < |calls|
      ensures Room(capacity, earn, calls, i, to) == Room(capacity, earn, calls, i, from) + gain
    {
      assert Adds(earn, from - calls[i].effective, to - from);
      assert from - calls[i].effective + (to - from) == to - calls[i].effective;
    }
    if tokens + gain <= capacity && tokens != capacity {
      var i: nat :| i < |calls| && tokens == Room(capacity, earn, calls, i, from);
      assert tokens + gain == Room(capacity, earn, calls, i, to);
    }
  }

  lemma Append(
      capacity: real, earn: real -> real, calls: seq<Call>, reading: real, now: real, tokens: real, granted: bool)
    requires Steady(earn) && Tightest(capacity, earn, calls, now, tokens)
    ensures Tightest(capacity, earn, calls + [Call(reading, now, granted)], now, if granted then tokens - 1.0
      else tokens)
  {
    var c := Call(reading, now, granted);
    var after := calls + [c];
    var spent := if granted then 1.0 else 0.0;
    forall i: nat | i < |calls|
      ensures Room(capacity, earn, after, i, now) == Room(capacity, earn, calls, i, now) - spent
    {
      GrantsAppend(calls, c, i);
      assert after[i] == calls[i];
    }
    var n := |calls|;
    GrantsAppend(calls, c, n);
    assert Adds(earn, 0.0, 0.0) && now - after[n].effective == 0.0;
    assert Room(capacity, earn, after, n, now) == capacity - spent;
    if tokens != capacity {
      var i: nat :| i < |calls| && tokens == Room(capacity, earn, calls, i, now);
      assert tokens - spent == Room(capacity, earn, after, i, now);
    }
  }

  // ----- the bound over whole histories -----

  lemma DecidedAppend(capacity: real, earn: real -> real, calls: seq<Call>, c: Call)
    requires Decided(capacity, earn, calls)
    requires c.granted <==> Conforms(capacity, earn, calls, c.effective)
    ensures Decided(capacity, earn, calls + [c])
  {
    var after := calls + [c];
    forall k: nat | k < |after|
      ensures after[k].granted <==> Conforms(capacity, earn, after[..k], after[k].effective)
    {
      assert after[..k] == calls[..k];
      assert calls[..|calls|] == calls;
    }
  }

  lemma DecidedPrefix(capacity: real, earn: real -> real, calls: seq<Call>, n: nat)
    requires n <= |calls| && Decided(capacity, earn, calls)
    ensures Decided(capacity, earn, calls[..n])
  {
    forall k: nat | k < n
      ensures calls[..n][k].granted <==> Conforms(capacity, earn, calls[..n][..k], calls[..n][k].effective)
    {
      assert calls[..n][..k] == calls[..k];
    }
  }

  lemma Longer(earn: real -> real, a: real, b: real)
    requires Steady(earn) && a <= b
    ensures earn(a) <= earn(b)
    ensures 0.0 <= a ==> 0.0 <= earn(a)
  {
    assert Adds(earn, a, b - a) && Adds(earn, b - a, a);
    assert a + (b - a) == b;
  }

  /** From any call to the end of a history, the grants number at most capacity + rate * elapsed. */
  lemma {:induction false} WindowBound(capacity: real, earn: real -> real, calls: seq<Call>, last: real, i: nat)
    requires Steady(earn) && 0.0 <= capacity && i < |calls|
    requires Ordered(calls, last) && Decided(capacity, earn, calls)
    ensures Grants(calls, i) as real <= capacity + earn(last - calls[i].effective)
    decreases |calls|
  {
    var k := |calls| - 1;
    var before := calls[..k];
    var at := calls[k].effective;
    assert calls == before + [calls[k]];
    GrantsAppend(before, calls[k], i);
    Longer(earn, at - calls[i].effective, last - calls[i].effective);
    if calls[k].granted {
      assert Conforms(capacity, earn, before, at);
      if i < k {
        assert before[i] == calls[i];
        assert 1.0 <= Room(capacity, earn, before, i, at);
      }
    } else if i < k {
      DecidedPrefix(capacity, earn, calls, k);
      assert Ordered(before, at);
      WindowBound(capacity, earn, before, at, i);
    }
  }

  /** Grants at effective times within [s, t]. */
  function GrantsBetween(calls: seq<Call>, s: real, t: real): nat {
    if calls == [] then 0
    else
      var c := calls[|calls| - 1];
      GrantsBetween(calls[..|calls| - 1], s, t) + if c.granted && s <= c.effective <= t then 1 else 0
  }

  lemma {:induction false} BetweenIsSuffix(calls: seq<Call>, s: real, t: real, i: nat)
    requires i <= |calls|
    requires forall j: nat | j < |calls| :: (s <= calls[j].effective <= t) <==> i <= j
    ensures GrantsBetween(calls, s, t) == Grants(calls, i)
    decreases |calls|
  {
    if calls != [] {
      var k := |calls| - 1;
      assert calls == calls[..k] + [calls[k]];
      if i <= k {
        BetweenIsSuffix(calls[..k], s, t, i);
        GrantsAppend(calls[..k], calls[k], i);
      } else {
        BetweenIsSuffix(calls[..k], s, t, k);
      }
    }
  }

  /** Between any two instants s <= t a bucket's history holds at most capacity + rate * (t - s) grants. */
  lemma InstantBound(capacity: real, rate: real, calls: seq<Call>, last: real, s: real, t: real)
    requires 0.0 <= rate && 0.0 <= capacity && s <= t
    requires Ordered(calls, last) && Decided(capacity, Earn(rate), calls)
    ensures GrantsBetween(calls, s, t) as real <= capacity + (t - s) * rate
  {
    EarnOf(rate, t - s);
    hide Ordered, Decided, Steady, GrantsBetween, Earn;
    EarnIsSteady(rate);
    SteadyInstantBound(capacity, Earn(rate), calls, last, s, t);
  }

  lemma {:induction false} SteadyInstantBound(
      capacity: real, earn: real -> real, calls: seq<Call>, last: real, s: real, t: real)
    requires Steady(earn) && 0.0 <= capacity && s <= t
    requires Ordered(calls, last) && Decided(capacity, earn, calls)
    ensures GrantsBetween(calls, s, t) as real <= capacity + earn(t - s)
    decreases |calls|
  {
    Longer(earn, t - s, t - s);
    if calls != [] {
      var k := |calls| - 1;
      var at := calls[k].effective;
      if s <= at <= t {
        var i := FirstAtOrAfter(calls, last, s);
        BetweenIsSuffix(calls, s, t, i);
        WindowBound(capacity, earn, calls, at, i);
        Longer(earn, at - calls[i].effective, t - s);
      } else {
        DecidedPrefix(capacity, earn, calls, k);
        SteadyInstantBound(capacity, earn, calls[..k], last, s, t);
      }
    }
  }

  lemma FirstAtOrAfter(calls: seq<Call>, last: real, s: real) returns (i: nat)
    requires Ordered(calls, last) && calls != [] && s <= calls[|calls| - 1].effective
    ensures i < |calls|
    ensures forall j: nat | j < |calls| :: s <= calls[j].effective <==> i <= j
  {
    i := |calls| - 1;
    while 0 < i && s <= calls[i - 1].effective
      invariant i < |calls|
      invariant forall j: nat | i <= j < |calls| :: s <= calls[j].effective
    {
      i := i - 1;
    }
  }

  /** Between any two effective times, the grants of any bucket stay within capacity + rate * elapsed. */
  lemma RunBound(rate: real, start: real, readings: seq<real>, s: real, t: real)
    requires 0.0 <= rate && s <= t
    ensures GrantsBetween(Run(rate, start, readings).calls, s, t) as real <= rate + Earn(rate)(t - s)
  {
    hide Run, Ordered, Decided, Tightest, Steady, GrantsBetween, Earn;
    RunIsSound(rate, start, readings);
    EarnIsSteady(rate);
    var st := Run(rate, start, readings);
    SteadyInstantBound(rate, Earn(rate), st.calls, st.last, s, t);
  }
}
