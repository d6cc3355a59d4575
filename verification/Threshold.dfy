/** THRESHOLD evaluation: the two-pointer window, and the grouping and deduplication around it. */
module Threshold {
  import opened Wrappers
  import opened Sorting

  datatype Candidate = Candidate(id: string, time: int)

  predicate Before(a: Candidate, b: Candidate) {
    a.time < b.time || (a.time == b.time && StringLess(a.id, b.id))
  }

  lemma BeforeIsStrictOrder()
    ensures StrictOrder(Before)
  {
    StringOrder();
  }

  // ----- one group -----

  /** The `threshold` candidates that end at index `r` fit the window. */
  predicate WindowEndsAt(c: seq<Candidate>, threshold: nat, window: int, r: nat)
    requires 1 <= threshold && r < |c|
  {
    threshold <= r + 1 && c[r].time - c[r + 1 - threshold].time <= window
  }

  /** Reference selection: the run of `threshold` consecutive candidates with the least fitting end at or after `r`. */
  function FirstWindow(c: seq<Candidate>, threshold: nat, window: int, r: nat): Option<seq<Candidate>>
    requires 1 <= threshold && r <= |c|
    decreases |c| - r
  {
    if r == |c| then None
    else if WindowEndsAt(c, threshold, window, r) then Some(c[r + 1 - threshold..r + 1])
    else FirstWindow(c, threshold, window, r + 1)
  }

  lemma TimesAscend(c: seq<Candidate>)
    requires Sorted(Before, c)
    ensures forall i, j :: 0 <= i < j < |c| ==> c[i].time <= c[j].time
  {
    forall i, j | 0 <= i < j < |c|
      ensures c[i].time <= c[j].time
    {
      assert Before(c[i], c[j]);
    }
  }

  /** The evaluator's two-pointer scan over one group in (time, id) order. */
  method ScanWindow(c: seq<Candidate>, threshold: nat, window: int) returns (r: Option<seq<Candidate>>)
    requires 1 <= threshold && 0 <= window && Sorted(Before, c)
    ensures r == FirstWindow(c, threshold, window, 0)
  {
    TimesAscend(c);
    hide Sorted, Before;
    var left: nat, right: nat := 0, 0;
    while right < |c|
      invariant left <= right <= |c|
      invariant right - left < threshold
      invariant forall j :: 0 <= j < left && right < |c| ==> c[right].time - c[j].time > window
      invariant FirstWindow(c, threshold, window, 0) == FirstWindow(c, threshold, window, right)
    {
      while left <= right && c[right].time - c[left].time > window
        invariant left <= right
        invariant forall j :: 0 <= j < left ==> c[right].time - c[j].time > window
      {
        left := left + 1;
      }
      if right + 1 - left < threshold {
        assert !WindowEndsAt(c, threshold, window, right);
        right := right + 1;
        continue;
      }
      return Some(c[left..right + 1]);
    }
    return None;
  }

  /** `threshold` distinct candidates that pairwise span at most the window. */
  ghost predicate Qualifies(s: set<Candidate>, threshold: nat, window: int) {
    |s| == threshold && forall x, y :: x in s && y in s ==> x.time - y.time <= window
  }

  lemma {:induction false} ElementsBound(c: seq<Candidate>)
    ensures |Elements(c)| <= |c|
    ensures Distinct(c) ==> |Elements(c)| == |c|
  {
    if c != [] {
      ElementsBound(c[1..]);
      assert c == [c[0]] + c[1..];
      assert Elements(c) == {c[0]} + Elements(c[1..]);
    }
  }

  /** The last index whose candidate lies in a non-empty set drawn from `c`. */
  lemma LastIndex(c: seq<Candidate>, s: set<Candidate>) returns (m: nat)
    requires s != {} && s <= Elements(c)
    ensures m < |c| && c[m] in s && forall j :: m < j < |c| ==> c[j] !in s
  {
    var x :| x in s;
    assert x in c;
    var k :| 0 <= k < |c| && c[k] == x;
    m := |c| - 1;
    while c[m] !in s
      invariant k <= m < |c| && forall j :: m < j < |c| ==> c[j] !in s
      decreases m
    {
      m := m - 1;
    }
  }

  /** The first index within the window that ends at `m`. */
  lemma OldestInWindow(c: seq<Candidate>, window: int, m: nat) returns (l: nat)
    requires Sorted(Before, c) && m < |c| && 0 <= window
    ensures l <= m && c[m].time - c[l].time <= window
    ensures forall j :: 0 <= j < l ==> c[m].time - c[j].time > window
  {
    l := m;
    while 0 < l && c[m].time - c[l - 1].time <= window
      invariant l <= m && c[m].time - c[l].time <= window
    {
      l := l - 1;
    }
    assert forall j :: 0 <= j < l - 1 ==> Before(c[j], c[l - 1]);
  }

  /** Any qualifying set whose last member sits at index `m` forces a window that ends at `m`. */
  lemma QualifyingForcesWindow(c: seq<Candidate>, threshold: nat, window: int, s: set<Candidate>, m: nat)
    requires 1 <= threshold && 0 <= window && Sorted(Before, c) && s <= Elements(c) && Qualifies(s, threshold, window)
    requires m < |c| && c[m] in s && forall j :: m < j < |c| ==> c[j] !in s
    ensures WindowEndsAt(c, threshold, window, m)
  {
    var l := OldestInWindow(c, window, m);
    var run := c[l..m + 1];
    forall x | x in s
      ensures x in run
    {
      assert x in c;
      var j :| 0 <= j < |c| && c[j] == x;
      assert l <= j <= m;
      assert run[j - l] == x;
    }
    ElementsBound(run);
    SubsetSize(s, Elements(run));
    var first := m + 1 - threshold;
    assert l == first || Before(c[l], c[first]);
  }

  lemma {:induction false} NoneMeansNoWindow(c: seq<Candidate>, threshold: nat, window: int, from: nat)
    requires 1 <= threshold && from <= |c|
    ensures FirstWindow(c, threshold, window, from).None? ==>
              forall r: nat :: from <= r < |c| ==> !WindowEndsAt(c, threshold, window, r)
    decreases |c| - from
  {
    if from < |c| && !WindowEndsAt(c, threshold, window, from) {
      NoneMeansNoWindow(c, threshold, window, from + 1);
    }
  }

  /**
   * The scan refines brute force: a group emits exactly when some `threshold` distinct candidates
   * span at most the window.
   */
  lemma EmitsIffQualifyingSetExists(c: seq<Candidate>, threshold: nat, window: int)
    requires 1 <= threshold && 0 <= window && Sorted(Before, c)
    ensures FirstWindow(c, threshold, window, 0).Some?
            <==> exists s: set<Candidate> :: s <= Elements(c) && Qualifies(s, threshold, window)
  {
    var w := FirstWindow(c, threshold, window, 0);
    NoneMeansNoWindow(c, threshold, window, 0);
    if w.Some? {
      EmittedWindowQualifies(c, threshold, window);
    } else {
      forall s: set<Candidate> | s <= Elements(c)
        ensures !Qualifies(s, threshold, window)
      {
        if Qualifies(s, threshold, window) {
          var m := LastIndex(c, s);
          QualifyingForcesWindow(c, threshold, window, s, m);
        }
      }
    }
  }

  ghost predicate RunAt(c: seq<Candidate>, run: seq<Candidate>, l: nat) {
    l + |run| <= |c| && run == c[l..l + |run|]
  }

  lemma RunSpread(c: seq<Candidate>, l: nat, r: nat, i: nat, j: nat)
    requires Sorted(Before, c) && l <= i <= r < |c| && l <= j <= r
    ensures c[i].time - c[j].time <= c[r].time - c[l].time
  {
    hide Sorted, Before;
    TimesAscend(c);
  }

  lemma RunDistinct(c: seq<Candidate>, l: nat, r: nat)
    requires Sorted(Before, c) && l <= r < |c|
    ensures Distinct(c[l..r + 1])
  {
    hide Sorted, Before;
    SortedDistinct(c);
  }

  lemma WindowQualifies(c: seq<Candidate>, threshold: nat, window: int, r: nat)
    requires 1 <= threshold && 0 <= window && Sorted(Before, c)
    requires r < |c| && WindowEndsAt(c, threshold, window, r)
    ensures Qualifies(Elements(c[r + 1 - threshold..r + 1]), threshold, window)
  {
    hide Sorted, Before, Distinct;
    var l := r + 1 - threshold;
    var run := c[l..r + 1];
    RunDistinct(c, l, r);
    ElementsBound(run);
    forall x, y | x in run && y in run
      ensures x.time - y.time <= window
    {
      var i :| 0 <= i < threshold && x == run[i];
      var j :| 0 <= j < threshold && y == run[j];
      RunSpread(c, l, r, l + i, l + j);
    }
  }

  lemma SortedDistinct(c: seq<Candidate>)
    requires Sorted(Before, c)
    ensures Distinct(c)
  {
    forall i, j | 0 <= i < j < |c|
      ensures c[i] != c[j]
    {
      assert Before(c[i], c[j]);
      StringLessTotal(c[i].id, c[i].id);
    }
  }

  /** What is emitted: `threshold` consecutive candidates in (time, id) order, spanning at most the window. */
  lemma EmittedWindowQualifies(c: seq<Candidate>, threshold: nat, window: int)
    requires 1 <= threshold && 0 <= window && Sorted(Before, c)
    requires FirstWindow(c, threshold, window, 0).Some?
    ensures var w := FirstWindow(c, threshold, window, 0).value;
            && |w| == threshold && Sorted(Before, w)
            && (exists l: nat :: RunAt(c, w, l))
            && Elements(w) <= Elements(c) && Qualifies(Elements(w), threshold, window)
  {
    hide FirstWindow, Qualifies, Before, Sorted, RunAt, WindowEndsAt;
    var r := WindowEnd(c, threshold, window, 0);
    WindowQualifies(c, threshold, window, r);
    RunOf(c, r + 1 - threshold, r + 1);
  }

  /** Where the selected window ends: at the least fitting end from `from` on. */
  lemma {:induction false} WindowEnd(c: seq<Candidate>, threshold: nat, window: int, from: nat) returns (r: nat)
    requires 1 <= threshold && from <= |c| && FirstWindow(c, threshold, window, from).Some?
    ensures from <= r < |c| && threshold <= r + 1 && WindowEndsAt(c, threshold, window, r)
    ensures FirstWindow(c, threshold, window, from) == Some(c[r + 1 - threshold..r + 1])
    ensures forall q: nat :: from <= q < r ==> !WindowEndsAt(c, threshold, window, q)
    decreases |c| - from
  {
    if WindowEndsAt(c, threshold, window, from) {
      r := from;
    } else {
      r := WindowEnd(c, threshold, window, from + 1);
    }
  }

  lemma RunOf(c: seq<Candidate>, l: nat, r: nat)
    requires Sorted(Before, c) && l <= r <= |c|
    ensures Sorted(Before, c[l..r]) && RunAt(c, c[l..r], l) && Elements(c[l..r]) <= Elements(c)
  {
    hide Before;
  }

  /** The emitted window ends no later, in (time, id) order, than any qualifying set does. */
  lemma EmittedWindowEndsEarliest(c: seq<Candidate>, threshold: nat, window: int, s: set<Candidate>)
    requires 1 <= threshold && 0 <= window && Sorted(Before, c)
    requires s <= Elements(c) && Qualifies(s, threshold, window)
    ensures var w := FirstWindow(c, threshold, window, 0);
            w.Some? && |w.value| == threshold
            && exists x :: x in s && (x == w.value[threshold - 1] || Before(w.value[threshold - 1], x))
  {
    var m := LastIndex(c, s);
    QualifyingForcesWindow(c, threshold, window, s, m);
    NoneMeansNoWindow(c, threshold, window, 0);
    var w := FirstWindow(c, threshold, window, 0);
    var r := WindowEnd(c, threshold, window, 0);
    assert r <= m;
    assert w.value[threshold - 1] == c[r];
    assert c[m] in s && (r == m || Before(c[r], c[m]));
  }
}
