/** SEQUENCE selection: the greedy stage matcher over one ordered group of candidates. */
module Sequence {
  import opened Wrappers
  import opened Sorting

  datatype Candidate<K> = Candidate(id: string, stages: seq<nat>, time: int, key: K)

  datatype Selection = Selection(picked: seq<nat>, first: int, last: int)

  function Min(a: int, b: int): int {
    if a <= b then a else b
  }

  function Max(a: int, b: int): int {
    if a >= b then a else b
  }

  /** Candidates are in ascending order-key order. */
  ghost predicate KeysAscend<K(!new)>(less: (K, K) -> bool, c: seq<Candidate<K>>) {
    forall i, j :: 0 <= i < j < |c| ==> !less(c[j].key, c[i].key)
  }

  /** Candidate `i` may take the next stage after a partial selection. */
  predicate Eligible<K(!new)>(less: (K, K) -> bool, c: seq<Candidate<K>>, window: int, s: Selection, i: nat)
    requires i < |c| && s.picked != [] && s.picked[|s.picked| - 1] < |c|
  {
    && |s.picked| in c[i].stages
    && less(c[s.picked[|s.picked| - 1]].key, c[i].key)
    && Max(s.last, c[i].time) - Min(s.first, c[i].time) <= window
  }

  function NextIndex<K(!new)>(
      less: (K, K) -> bool, c: seq<Candidate<K>>, window: int, s: Selection, i: nat): (r: Option<nat>)
    requires i <= |c| && s.picked != [] && s.picked[|s.picked| - 1] < |c|
    ensures r.Some? ==> i <= r.value < |c| && Eligible(less, c, window, s, r.value)
    decreases |c| - i
  {
    if i == |c| then None
    else if Eligible(less, c, window, s, i) then Some(i)
    else NextIndex(less, c, window, s, i + 1)
  }

  lemma {:induction false} NextIndexIsLeast<K(!new)>(
      less: (K, K) -> bool, c: seq<Candidate<K>>, window: int, s: Selection, i: nat, j: nat)
    requires i <= j < |c| && s.picked != [] && s.picked[|s.picked| - 1] < |c| && Eligible(less, c, window, s, j)
    ensures NextIndex(less, c, window, s, i).Some? && NextIndex(less, c, window, s, i).value <= j
    decreases j - i
  {
    if !Eligible(less, c, window, s, i) {
      NextIndexIsLeast(less, c, window, s, i + 1, j);
    }
  }

  function Pick<K>(c: seq<Candidate<K>>, s: Selection, i: nat): Selection
    requires i < |c|
  {
    Selection(s.picked + [i], Min(s.first, c[i].time), Max(s.last, c[i].time))
  }

  /** Greedy completion: each stage takes the earliest eligible candidate. */
  function Extend<K(!new)>(
      less: (K, K) -> bool, c: seq<Candidate<K>>, stages: nat, window: int, s: Selection): Option<Selection>
    requires s.picked != [] && |s.picked| <= stages && s.picked[|s.picked| - 1] < |c|
    decreases stages - |s.picked|
  {
    if |s.picked| == stages then Some(s)
    else
      match NextIndex(less, c, window, s, s.picked[|s.picked| - 1] + 1)
      case None => None
      case Some(i) => Extend(less, c, stages, window, Pick(c, s, i))
  }

  function StartAt<K>(c: seq<Candidate<K>>, start: nat): Selection
    requires start < |c|
  {
    Selection([start], c[start].time, c[start].time)
  }

  function Select<K(!new)>(
      less: (K, K) -> bool, c: seq<Candidate<K>>, stages: nat, window: int, start: nat): Option<Selection>
    requires 1 <= stages && start <= |c|
    decreases |c| - start
  {
    if start == |c| then None
    else if 0 in c[start].stages && Extend(less, c, stages, window, StartAt(c, start)).Some? then
      Extend(less, c, stages, window, StartAt(c, start))
    else Select(less, c, stages, window, start + 1)
  }

  /** The source's nested loops. */
  method SelectSequence<K(!new)>(less: (K, K) -> bool, c: seq<Candidate<K>>, stages: nat, window: int)
    returns (r: Option<Selection>)
    requires 1 <= stages
    ensures r == Select(less, c, stages, window, 0)
  {
    var start: nat := 0;
    while start < |c|
      invariant start <= |c|
      invariant Select(less, c, stages, window, 0) == Select(less, c, stages, window, start)
    {
      if 0 !in c[start].stages {
        start := start + 1;
        continue;
      }
      var s := StartAt(c, start);
      var complete := true;
      var stage := 1;
      while stage < stages
        invariant 1 <= stage <= stages && stage == |s.picked| && s.picked[stage - 1] < |c|
        invariant complete
        invariant Extend(less, c, stages, window, StartAt(c, start)) == Extend(less, c, stages, window, s)
      {
        var i := s.picked[stage - 1] + 1;
        while i < |c| && !Eligible(less, c, window, s, i)
          invariant s.picked[stage - 1] < i <= |c|
          invariant NextIndex(less, c, window, s, s.picked[stage - 1] + 1) == NextIndex(less, c, window, s, i)
        {
          i := i + 1;
        }
        if i == |c| {
          complete := false;
          break;
        }
        s := Pick(c, s, i);
        stage := stage + 1;
      }
      if complete {
        return Some(s);
      }
      start := start + 1;
    }
    return None;
  }

  // ----- what a sequence is -----

  /** One candidate per stage, in strictly ascending order keys. */
  ghost predicate Covers<K(!new)>(less: (K, K) -> bool, c: seq<Candidate<K>>, picked: seq<nat>) {
    && (forall i :: 0 <= i < |picked| ==> picked[i] < |c| && i in c[picked[i]].stages)
    && forall i, j :: 0 <= i < j < |picked| ==> less(c[picked[i]].key, c[picked[j]].key)
  }

  ghost predicate Within<K(!new)>(c: seq<Candidate<K>>, picked: seq<nat>, window: int)
    requires forall i :: 0 <= i < |picked| ==> picked[i] < |c|
  {
    forall i, j :: 0 <= i < |picked| && 0 <= j < |picked| ==> c[picked[i]].time - c[picked[j]].time <= window
  }

  /** A qualifying sequence: it covers every stage within the window. */
  ghost predicate Chain<K(!new)>(
      less: (K, K) -> bool, c: seq<Candidate<K>>, stages: nat, window: int, picked: seq<nat>) {
    |picked| == stages && Covers(less, c, picked) && Within(c, picked, window)
  }

  /** A partial selection, with the exact bounds of its times. */
  ghost predicate Partial<K(!new)>(less: (K, K) -> bool, c: seq<Candidate<K>>, window: int, s: Selection) {
    && s.picked != [] && Covers(less, c, s.picked) && s.last - s.first <= window
    && (forall i :: 0 <= i < |s.picked| ==> s.first <= c[s.picked[i]].time <= s.last)
    && (exists i :: 0 <= i < |s.picked| && c[s.picked[i]].time == s.first)
    && (exists i :: 0 <= i < |s.picked| && c[s.picked[i]].time == s.last)
  }

  // ----- soundness -----

  lemma AllBehind<K(!new)>(less: (K, K) -> bool, c: seq<Candidate<K>>, picked: seq<nat>, i: nat)
    requires PartialOrder(less) && Covers(less, c, picked) && picked != [] && i < |c|
    requires less(c[picked[|picked| - 1]].key, c[i].key)
    ensures forall j :: 0 <= j < |picked| ==> less(c[picked[j]].key, c[i].key)
  {
    var n := |picked|;
    forall j | 0 <= j < n
      ensures less(c[picked[j]].key, c[i].key)
    {
      assert j == n - 1 || less(c[picked[j]].key, c[picked[n - 1]].key);
    }
  }

  lemma PickKeepsPartial<K(!new)>(less: (K, K) -> bool, c: seq<Candidate<K>>, window: int, s: Selection, i: nat)
    requires PartialOrder(less) && Partial(less, c, window, s) && i < |c| && Eligible(less, c, window, s, i)
    ensures Partial(less, c, window, Pick(c, s, i))
  {
    hide PartialOrder;
    var t := Pick(c, s, i);
    var n := |s.picked|;
    assert t.picked[n] == i && forall j :: 0 <= j < n ==> t.picked[j] == s.picked[j];
    AllBehind(less, c, s.picked, i);
    var lo :| 0 <= lo < n && c[s.picked[lo]].time == s.first;
    var hi :| 0 <= hi < n && c[s.picked[hi]].time == s.last;
    assert c[t.picked[if c[i].time < s.first then n else lo]].time == t.first;
    assert c[t.picked[if c[i].time > s.last then n else hi]].time == t.last;
  }

  lemma SoundStep<K(!new)>(less: (K, K) -> bool, c: seq<Candidate<K>>, stages: nat, window: int, s: Selection)
    returns (t: Selection)
    requires PartialOrder(less) && Partial(less, c, window, s) && |s.picked| < stages
    requires NextIndex(less, c, window, s, s.picked[|s.picked| - 1] + 1).Some?
    ensures Partial(less, c, window, t) && |t.picked| == |s.picked| + 1 && t.picked[0] == s.picked[0]
    ensures Extend(less, c, stages, window, s) == Extend(less, c, stages, window, t)
  {
    hide PartialOrder;
    var next := NextIndex(less, c, window, s, s.picked[|s.picked| - 1] + 1).value;
    t := Pick(c, s, next);
    PickKeepsPartial(less, c, window, s, next);
  }

  lemma {:induction false} ExtendIsSound<K(!new)>(
      less: (K, K) -> bool, c: seq<Candidate<K>>, stages: nat, window: int, s: Selection)
    requires PartialOrder(less) && Partial(less, c, window, s) && |s.picked| <= stages
    ensures var r := Extend(less, c, stages, window, s);
            r.Some? ==>
              Partial(less, c, window, r.value) && |r.value.picked| == stages && r.value.picked[0] == s.picked[0]
    decreases stages - |s.picked|
  {
    hide PartialOrder, Eligible, Pick;
    if |s.picked| < stages && NextIndex(less, c, window, s, s.picked[|s.picked| - 1] + 1).Some? {
      var t := SoundStep(less, c, stages, window, s);
      ExtendIsSound(less, c, stages, window, t);
    }
  }

  lemma StartIsPartial<K(!new)>(less: (K, K) -> bool, c: seq<Candidate<K>>, window: int, start: nat)
    requires start < |c| && 0 in c[start].stages && 0 <= window
    ensures Partial(less, c, window, StartAt(c, start))
  {
    var s := StartAt(c, start);
    assert c[s.picked[0]].time == s.first == s.last;
  }

  lemma {:induction false} SelectSound<K(!new)>(
      less: (K, K) -> bool, c: seq<Candidate<K>>, stages: nat, window: int, start: nat)
    requires PartialOrder(less) && 1 <= stages && start <= |c| && 0 <= window
    ensures var r := Select(less, c, stages, window, start);
            r.Some? ==> Partial(less, c, window, r.value) && |r.value.picked| == stages && start <= r.value.picked[0]
    decreases |c| - start
  {
    if start < |c| {
      if 0 in c[start].stages {
        StartIsPartial(less, c, window, start);
        ExtendIsSound(less, c, stages, window, StartAt(c, start));
      }
      SelectSound(less, c, stages, window, start + 1);
    }
  }

  /** Whatever the policy, a returned selection is a qualifying sequence with the exact bounds of its times. */
  lemma SelectIsSound<K(!new)>(less: (K, K) -> bool, c: seq<Candidate<K>>, stages: nat, window: int)
    requires StrictOrder(less) && KeysAscend(less, c) && 1 <= stages && 0 <= window
    ensures var r := Select(less, c, stages, window, 0);
            r.Some? ==> Chain(less, c, stages, window, r.value.picked) && Partial(less, c, window, r.value)
  {
    SelectSound(less, c, stages, window, 0);
  }

  // ----- completeness -----

  /** Candidate time never decreases as the order key grows. */
  ghost predicate TimeMonotone<K(!new)>(less: (K, K) -> bool, c: seq<Candidate<K>>) {
    forall i, j :: 0 <= i < |c| && 0 <= j < |c| && less(c[i].key, c[j].key) ==> c[i].time <= c[j].time
  }

  ghost predicate NoLater(a: seq<nat>, b: seq<nat>) {
    |a| <= |b| && forall i :: 0 <= i < |a| ==> a[i] <= b[i]
  }

  lemma KeyAhead<K(!new)>(less: (K, K) -> bool, c: seq<Candidate<K>>, i: nat, j: nat, k: nat)
    requires StrictOrder(less) && KeysAscend(less, c) && i <= j < |c| && k < |c| && less(c[j].key, c[k].key)
    ensures i < k && less(c[i].key, c[k].key)
  {
    assert i == j || !less(c[j].key, c[i].key);
  }

  function Distance<K>(c: seq<Candidate<K>>, i: nat, j: nat): int
    requires i < |c| && j < |c|
  {
    Max(c[i].time, c[j].time) - Min(c[i].time, c[j].time)
  }

  /**
   * Taking `b` where `d` would do puts `e` out of reach: the two are farther apart than any two of
   * the candidates `a`, `d`, `e`, and than `a` and `b`.
   */
  ghost predicate Trap<K(!new)>(less: (K, K) -> bool, c: seq<Candidate<K>>, a: nat, b: nat, d: nat, e: nat) {
    && a < b < d < e < |c| && less(c[a].key, c[b].key) && less(c[d].key, c[e].key)
    && Distance(c, a, b) < Distance(c, b, e) && Distance(c, a, d) < Distance(c, b, e)
    && Distance(c, a, e) < Distance(c, b, e) && Distance(c, d, e) < Distance(c, b, e)
  }

  ghost predicate NoTraps<K(!new)>(less: (K, K) -> bool, c: seq<Candidate<K>>) {
    forall a: nat, b: nat, d: nat, e: nat :: !Trap(less, c, a, b, d, e)
  }

  lemma MonotoneIsClose<K(!new)>(less: (K, K) -> bool, c: seq<Candidate<K>>, a: nat, b: nat, d: nat, e: nat)
    requires StrictOrder(less) && KeysAscend(less, c) && TimeMonotone(less, c)
    requires a < b < d < e < |c| && less(c[a].key, c[b].key) && less(c[d].key, c[e].key)
    ensures Distance(c, b, e) <= Distance(c, a, e)
  {
    KeyAhead(less, c, b, d, e);
  }

  /** Time that follows the order key leaves no traps. */
  lemma MonotoneHasNoTraps<K(!new)>(less: (K, K) -> bool, c: seq<Candidate<K>>)
    requires StrictOrder(less) && KeysAscend(less, c) && TimeMonotone(less, c)
    ensures NoTraps(less, c)
  {
    hide StrictOrder, KeysAscend, TimeMonotone;
    forall a: nat, b: nat, d: nat, e: nat
      ensures !Trap(less, c, a, b, d, e)
    {
      if a < b < d < e < |c| && less(c[a].key, c[b].key) && less(c[d].key, c[e].key) {
        MonotoneIsClose(less, c, a, b, d, e);
      }
    }
  }

  /** Without traps a pick made before the rival's own is as close to the rival's next one as the window asks. */
  lemma PickIsClose<K(!new)>(
      less: (K, K) -> bool, c: seq<Candidate<K>>, stages: nat, window: int, s: Selection, q: seq<nat>, i: nat)
    requires StrictOrder(less) && KeysAscend(less, c) && NoTraps(less, c)
    requires Partial(less, c, window, s) && |s.picked| < stages && Chain(less, c, stages, window, q)
    requires s.picked[0] == q[0] && NoLater(s.picked, q) && i < |s.picked|
    ensures Distance(c, s.picked[i], q[|s.picked|]) <= window
  {
    hide StrictOrder, KeysAscend;
    var a, b, d, e := q[0], s.picked[i], q[i], q[|s.picked|];
    assert Distance(c, a, d) <= window && Distance(c, a, e) <= window && Distance(c, d, e) <= window;
    if b != d {
      assert less(c[a].key, c[b].key) && less(c[d].key, c[e].key);
      KeyAhead(less, c, a, a, b);
      KeyAhead(less, c, d, d, e);
      assert !Trap(less, c, a, b, d, e);
    }
  }

  /** Exchange step: the rival's candidate for the next stage is eligible for the greedy selection too. */
  lemma RivalIsEligible<K(!new)>(
      less: (K, K) -> bool, c: seq<Candidate<K>>, stages: nat, window: int, s: Selection, q: seq<nat>)
    requires StrictOrder(less) && KeysAscend(less, c) && NoTraps(less, c)
    requires Partial(less, c, window, s) && |s.picked| < stages && Chain(less, c, stages, window, q)
    requires s.picked[0] == q[0] && NoLater(s.picked, q)
    ensures var n := |s.picked|;
            s.picked[n - 1] < q[n] && Eligible(less, c, window, s, q[n])
  {
    hide PartialOrder, KeysAscend, NoTraps, Within;
    var n := |s.picked|;
    var mine, theirs, rival := s.picked[n - 1], q[n - 1], q[n];
    assert less(c[theirs].key, c[rival].key);
    KeyAhead(less, c, mine, theirs, rival);
    var lo :| 0 <= lo < n && c[s.picked[lo]].time == s.first;
    var hi :| 0 <= hi < n && c[s.picked[hi]].time == s.last;
    PickIsClose(less, c, stages, window, s, q, lo);
    PickIsClose(less, c, stages, window, s, q, hi);
  }

  /** From a selection with some eligible candidate `j` ahead, greedy extension takes one at or before `j`. */
  lemma StepTo<K(!new)>(less: (K, K) -> bool, c: seq<Candidate<K>>, stages: nat, window: int, s: Selection, j: nat)
    returns (next: nat)
    requires s.picked != [] && |s.picked| < stages && s.picked[|s.picked| - 1] < j < |c|
      && Eligible(less, c, window, s, j)
    ensures next <= j && Eligible(less, c, window, s, next)
    ensures Extend(less, c, stages, window, s) == Extend(less, c, stages, window, Pick(c, s, next))
  {
    var n := |s.picked|;
    NextIndexIsLeast(less, c, window, s, s.picked[n - 1] + 1, j);
    next := NextIndex(less, c, window, s, s.picked[n - 1] + 1).value;
  }

  lemma {:induction false} ExtendIsComplete<K(!new)>(
      less: (K, K) -> bool, c: seq<Candidate<K>>, stages: nat, window: int, s: Selection, q: seq<nat>)
    requires StrictOrder(less) && KeysAscend(less, c) && NoTraps(less, c)
    requires Partial(less, c, window, s) && |s.picked| <= stages && Chain(less, c, stages, window, q)
    requires s.picked[0] == q[0] && NoLater(s.picked, q)
    ensures var r := Extend(less, c, stages, window, s);
            r.Some? && NoLater(r.value.picked, q)
    decreases stages - |s.picked|
  {
    hide PartialOrder, KeysAscend, NoTraps, Within;
    if |s.picked| < stages {
      RivalIsEligible(less, c, stages, window, s, q);
      var next := StepTo(less, c, stages, window, s, q[|s.picked|]);
      var t := Pick(c, s, next);
      assert NoLater(t.picked, q) && t.picked[0] == q[0];
      assert Partial(less, c, window, t) by {
        PickKeepsPartial(less, c, window, s, next);
      }
      ExtendIsComplete(less, c, stages, window, t, q);
    }
  }

  lemma {:induction false} SelectComplete<K(!new)>(
      less: (K, K) -> bool, c: seq<Candidate<K>>, stages: nat, window: int, start: nat, q: seq<nat>)
    requires StrictOrder(less) && KeysAscend(less, c) && NoTraps(less, c)
    requires 1 <= stages && 0 <= window && Chain(less, c, stages, window, q) && start <= q[0]
    ensures var r := Select(less, c, stages, window, start);
            && r.Some? && r.value.picked != [] && r.value.picked[0] <= q[0]
            && (r.value.picked[0] == q[0] ==> NoLater(r.value.picked, q))
    decreases |c| - start
  {
    if start == q[0] {
      StartIsPartial(less, c, window, start);
      ExtendIsComplete(less, c, stages, window, StartAt(c, start), q);
      ExtendIsSound(less, c, stages, window, StartAt(c, start));
    } else {
      if 0 in c[start].stages {
        StartIsPartial(less, c, window, start);
        ExtendIsSound(less, c, stages, window, StartAt(c, start));
      }
      SelectComplete(less, c, stages, window, start + 1, q);
    }
  }

  /**
   * Without traps greedy selection finds a sequence whenever one exists: it starts no later than any
   * qualifying sequence, and no pick comes later than that of a sequence with the same start.
   */
  lemma SelectIsComplete<K(!new)>(less: (K, K) -> bool, c: seq<Candidate<K>>, stages: nat, window: int, q: seq<nat>)
    requires StrictOrder(less) && KeysAscend(less, c) && NoTraps(less, c)
    requires 1 <= stages && 0 <= window && Chain(less, c, stages, window, q)
    ensures var r := Select(less, c, stages, window, 0);
            && r.Some? && Chain(less, c, stages, window, r.value.picked) && r.value.picked[0] <= q[0]
            && (r.value.picked[0] == q[0] ==> NoLater(r.value.picked, q))
  {
    SelectIsSound(less, c, stages, window);
    SelectComplete(less, c, stages, window, 0, q);
  }

  /** Without traps a sequence is returned exactly when a qualifying one exists. */
  lemma SelectsIffChainExists<K(!new)>(less: (K, K) -> bool, c: seq<Candidate<K>>, stages: nat, window: int)
    requires StrictOrder(less) && KeysAscend(less, c) && NoTraps(less, c)
    requires 1 <= stages && 0 <= window
    ensures Select(less, c, stages, window, 0).Some? <==> exists q :: Chain(less, c, stages, window, q)
  {
    SelectIsSound(less, c, stages, window);
    if q :| Chain(less, c, stages, window, q) {
      SelectIsComplete(less, c, stages, window, q);
    }
  }

  // ----- exactly when nothing is missed -----

  /** The same candidates, keys and times, with other stages. */
  function Relabel<K>(c: seq<Candidate<K>>, labels: seq<seq<nat>>): (r: seq<Candidate<K>>)
    requires |labels| == |c|
    ensures |r| == |c| && forall i :: 0 <= i < |c| ==> r[i] == c[i].(stages := labels[i])
  {
    seq(|c|, i requires 0 <= i < |c| => c[i].(stages := labels[i]))
  }

  /** Whatever stages its candidates satisfy and whatever the window, no sequence of the group is missed. */
  ghost predicate Complete<K(!new)>(less: (K, K) -> bool, c: seq<Candidate<K>>) {
    forall labels: seq<seq<nat>>, stages: nat, window: int, q: seq<nat> ::
      |labels| == |c| && 1 <= stages && 0 <= window && Chain(less, Relabel(c, labels), stages, window, q) ==>
        Select(less, Relabel(c, labels), stages, window, 0).Some?
  }

  lemma RelabelKeepsKeys<K(!new)>(less: (K, K) -> bool, c: seq<Candidate<K>>, labels: seq<seq<nat>>)
    requires |labels| == |c| && KeysAscend(less, c)
    ensures KeysAscend(less, Relabel(c, labels))
  {
  }

  lemma RelabelKeepsTraps<K(!new)>(less: (K, K) -> bool, c: seq<Candidate<K>>, labels: seq<seq<nat>>)
    requires |labels| == |c| && NoTraps(less, c)
    ensures NoTraps(less, Relabel(c, labels))
  {
    var r := Relabel(c, labels);
    forall a: nat, b: nat, d: nat, e: nat
      ensures !Trap(less, r, a, b, d, e)
    {
      assert !Trap(less, c, a, b, d, e);
    }
  }

  /** The stages that spring a trap: `a` opens, `b` and `d` may follow, `e` closes. */
  ghost predicate Springs<K(!new)>(
      less: (K, K) -> bool, c: seq<Candidate<K>>, window: int, a: nat, b: nat, d: nat, e: nat) {
    && Trap(less, c, a, b, d, e)
    && (forall i :: 0 <= i < |c| ==>
          c[i].stages == if i == a then [0] else if i == b || i == d then [1] else if i == e then [2] else [])
    && Distance(c, a, b) <= window && Distance(c, a, d) <= window && Distance(c, a, e) <= window
    && Distance(c, d, e) <= window < Distance(c, b, e)
  }

  lemma SprungHasChain<K(!new)>(
      less: (K, K) -> bool, c: seq<Candidate<K>>, window: int, a: nat, b: nat, d: nat, e: nat)
    requires StrictOrder(less) && KeysAscend(less, c) && Springs(less, c, window, a, b, d, e)
    ensures 0 <= window && Chain(less, c, 3, window, [a, d, e])
  {
    assert !less(c[d].key, c[b].key);
    assert less(c[a].key, c[d].key) && less(c[a].key, c[e].key);
  }

  lemma {:induction false} LateStartsFail<K(!new)>(
      less: (K, K) -> bool, c: seq<Candidate<K>>, window: int, a: nat, b: nat, d: nat, e: nat, start: nat)
    requires Springs(less, c, window, a, b, d, e) && a < start <= |c|
    ensures Select(less, c, 3, window, start).None?
    decreases |c| - start
  {
    if start < |c| {
      LateStartsFail(less, c, window, a, b, d, e, start + 1);
    }
  }

  lemma {:induction false} NothingAfter<K(!new)>(
      less: (K, K) -> bool, c: seq<Candidate<K>>, window: int, s: Selection, i: nat)
    requires i <= |c| && s.picked != [] && s.picked[|s.picked| - 1] < |c|
    requires forall j :: i <= j < |c| ==> !Eligible(less, c, window, s, j)
    ensures NextIndex(less, c, window, s, i).None?
    decreases |c| - i
  {
    if i < |c| {
      NothingAfter(less, c, window, s, i + 1);
    }
  }

  lemma EarlyStartFails<K(!new)>(
      less: (K, K) -> bool, c: seq<Candidate<K>>, window: int, a: nat, b: nat, d: nat, e: nat)
    requires Springs(less, c, window, a, b, d, e)
    ensures Extend(less, c, 3, window, StartAt(c, a)).None?
  {
    var s := StartAt(c, a);
    assert Eligible(less, c, window, s, b);
    var next := StepTo(less, c, 3, window, s, b);
    assert next == b;
    var t := Pick(c, s, b);
    forall j | b + 1 <= j < |c|
      ensures !Eligible(less, c, window, t, j)
    {
    }
    NothingAfter(less, c, window, t, b + 1);
  }

  lemma {:induction false} SprungIsMissed<K(!new)>(
      less: (K, K) -> bool, c: seq<Candidate<K>>, window: int, a: nat, b: nat, d: nat, e: nat, start: nat)
    requires Springs(less, c, window, a, b, d, e) && start <= a
    ensures Select(less, c, 3, window, start).None?
    decreases a - start
  {
    if start < a {
      SprungIsMissed(less, c, window, a, b, d, e, start + 1);
    } else {
      EarlyStartFails(less, c, window, a, b, d, e);
      LateStartsFail(less, c, window, a, b, d, e, a + 1);
    }
  }

  lemma TrapCatches<K(!new)>(less: (K, K) -> bool, c: seq<Candidate<K>>, a: nat, b: nat, d: nat, e: nat)
    requires StrictOrder(less) && KeysAscend(less, c) && Trap(less, c, a, b, d, e)
    ensures !Complete(less, c)
  {
    hide StrictOrder, KeysAscend, Chain, Select;
    var labels := seq(|c|, i =>
      if i == a then [0] else if i == b || i == d then [1] else if i == e then [2] else []);
    var window := Distance(c, b, e) - 1;
    var r := Relabel(c, labels);
    RelabelKeepsKeys(less, c, labels);
    assert Springs(less, r, window, a, b, d, e);
    SprungHasChain(less, r, window, a, b, d, e);
    SprungIsMissed(less, r, window, a, b, d, e, 0);
  }

  /**
   * Greedy selection misses no sequence of a group, whatever stages its candidates satisfy and
   * whatever the window, if and only if the group holds no trap.
   */
  lemma CompleteIffNoTraps<K(!new)>(less: (K, K) -> bool, c: seq<Candidate<K>>)
    requires StrictOrder(less) && KeysAscend(less, c)
    ensures Complete(less, c) <==> NoTraps(less, c)
  {
    hide StrictOrder, KeysAscend, Chain, Select, Trap, Complete;
    if a: nat, b: nat, d: nat, e: nat :| Trap(less, c, a, b, d, e) {
      TrapCatches(less, c, a, b, d, e);
    } else {
      NoTrapsIsComplete(less, c);
    }
  }

  lemma NoTrapsIsComplete<K(!new)>(less: (K, K) -> bool, c: seq<Candidate<K>>)
    requires StrictOrder(less) && KeysAscend(less, c) && NoTraps(less, c)
    ensures Complete(less, c)
  {
    hide StrictOrder, KeysAscend, Chain, Select, NoTraps;
    forall labels: seq<seq<nat>>, stages: nat, window: int, q: seq<nat> |
      |labels| == |c| && 1 <= stages && 0 <= window && Chain(less, Relabel(c, labels), stages, window, q)
      ensures Select(less, Relabel(c, labels), stages, window, 0).Some?
    {
      RelabelKeepsKeys(less, c, labels);
      RelabelKeepsTraps(less, c, labels);
      SelectIsComplete(less, Relabel(c, labels), stages, window, q);
    }
  }

  predicate IntLess(a: int, b: int) {
    a < b
  }

  /** Four candidates whose times do not follow their keys. */
  ghost predicate Unordered(c: seq<Candidate<int>>) {
    && |c| == 4
    && c[0].stages == [0] && c[0].time == 0 && c[0].key == 1
    && c[1].stages == [1] && c[1].time == 10 && c[1].key == 2
    && c[2].stages == [1] && c[2].time == 0 && c[2].key == 3
    && c[3].stages == [2] && c[3].time == -5 && c[3].key == 4
  }

  /**
   * A group with one trap: stage 1 takes a late candidate and stage 2 is out of reach, so the
   * sequence that is there is missed.
   */
  lemma GreedyMissesWithoutMonotoneTime(c: seq<Candidate<int>>)
    requires Unordered(c)
    ensures KeysAscend(IntLess, c) && Trap(IntLess, c, 0, 1, 2, 3) && Chain(IntLess, c, 3, 10, [0, 2, 3])
    ensures Select(IntLess, c, 3, 10, 0).None?
  {
    assert Springs(IntLess, c, 10, 0, 1, 2, 3);
    SprungHasChain(IntLess, c, 10, 0, 1, 2, 3);
    SprungIsMissed(IntLess, c, 10, 0, 1, 2, 3, 0);
  }

  // ----- the runtime's ordering -----

  /** Order keys of the batch runtime: observation milliseconds, then signal id. */
  type ObservedKey = (int, string)

  predicate ObservedLess(a: ObservedKey, b: ObservedKey) {
    a.0 < b.0 || (a.0 == b.0 && StringLess(a.1, b.1))
  }

  lemma ObservedOrder()
    ensures StrictOrder(ObservedLess)
  {
    StringOrder();
  }

  /** The runtime's keys carry the time first, so its candidates satisfy the hypothesis of completeness. */
  lemma ObservedKeysAreTimeMonotone(c: seq<Candidate<ObservedKey>>)
    requires forall i :: 0 <= i < |c| ==> c[i].key.0 == c[i].time
    ensures TimeMonotone(ObservedLess, c)
  {
  }
}
