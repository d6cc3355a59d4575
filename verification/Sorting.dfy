/** Sorting by a strict total order, and the string order the stores and evaluators sort by. */
module Sorting {

  ghost predicate PartialOrder<T(!new)>(less: (T, T) -> bool) {
    && (forall x :: !less(x, x))
    && (forall x, y, z :: less(x, y) && less(y, z) ==> less(x, z))
  }

  /** Any two different members of `s` are comparable. */
  ghost predicate TotalOn<T(!new)>(less: (T, T) -> bool, s: seq<T>) {
    forall x, y :: x in s && y in s ==> x == y || less(x, y) || less(y, x)
  }

  ghost predicate StrictOrder<T(!new)>(less: (T, T) -> bool) {
    PartialOrder(less) && forall x, y :: x == y || less(x, y) || less(y, x)
  }

  ghost predicate Sorted<T(!new)>(less: (T, T) -> bool, s: seq<T>) {
    forall i, j :: 0 <= i < j < |s| ==> less(s[i], s[j])
  }

  ghost predicate Distinct<T>(s: seq<T>) {
    forall i, j :: 0 <= i < j < |s| ==> s[i] != s[j]
  }

  ghost function Elements<T>(s: seq<T>): set<T> {
    set x | x in s
  }

  lemma {:induction false} SubsetSize<T>(a: set<T>, b: set<T>)
    requires a <= b
    ensures |a| <= |b|
  {
    if a != {} {
      var x :| x in a;
      SubsetSize(a - {x}, b - {x});
    }
  }

  function Insert<T(!new)>(less: (T, T) -> bool, x: T, s: seq<T>): (r: seq<T>)
    ensures |r| == |s| + 1
    ensures forall y :: y in r <==> y == x || y in s
  {
    if s == [] || less(x, s[0]) then [x] + s
    else
      var r := [s[0]] + Insert(less, x, s[1..]);
      assert s == [s[0]] + s[1..];
      r
  }

  function Sort<T(!new)>(less: (T, T) -> bool, s: seq<T>): (r: seq<T>)
    ensures |r| == |s|
    ensures forall y :: y in r <==> y in s
  {
    if s == [] then []
    else
      var rest := Sort(less, s[1..]);
      assert s == [s[0]] + s[1..];
      Insert(less, s[0], rest)
  }

  lemma {:induction false} InsertKeepsSorted<T(!new)>(less: (T, T) -> bool, x: T, s: seq<T>)
    requires PartialOrder(less) && TotalOn(less, [x] + s) && Sorted(less, s) && x !in s
    ensures Sorted(less, Insert(less, x, s))
  {
    if s == [] {
    } else if less(x, s[0]) {
      forall j | 0 < j <= |s|
        ensures less(x, ([x] + s)[j])
      {
        assert j == 1 || less(s[0], s[j - 1]);
      }
    } else {
      assert forall y :: y in [x] + s[1..] ==> y in [x] + s;
      InsertKeepsSorted(less, x, s[1..]);
      var tail := Insert(less, x, s[1..]);
      forall j | 0 <= j < |tail|
        ensures less(s[0], tail[j])
      {
        assert tail[j] in tail;
        assert tail[j] == x || tail[j] in s[1..];
        assert s[0] in [x] + s && x in [x] + s && x != s[0];
      }
    }
  }

  lemma {:induction false} SortIsSorted<T(!new)>(less: (T, T) -> bool, s: seq<T>)
    requires PartialOrder(less) && TotalOn(less, s) && Distinct(s)
    ensures Sorted(less, Sort(less, s))
  {
    if s != [] {
      SortIsSorted(less, s[1..]);
      assert s[0] !in s[1..];
      assert forall y :: y in [s[0]] + Sort(less, s[1..]) ==> y in s;
      InsertKeepsSorted(less, s[0], Sort(less, s[1..]));
    }
  }

  /** A strictly sorted sequence is determined by its elements. */
  lemma {:induction false} SortedUnique<T(!new)>(less: (T, T) -> bool, a: seq<T>, b: seq<T>)
    requires PartialOrder(less) && Sorted(less, a) && Sorted(less, b)
    requires forall x :: x in a <==> x in b
    ensures a == b
  {
    assert b != [] ==> b[0] in b;
    if a != [] {
      assert a[0] in a;
      var i :| 0 <= i < |b| && b[i] == a[0];
      var j :| 0 <= j < |a| && a[j] == b[0];
      assert i == 0;
      forall x
        ensures x in a[1..] <==> x in b[1..]
      {
        TailMember(less, a, x);
        TailMember(less, b, x);
      }
      SortedUnique(less, a[1..], b[1..]);
      assert a == [a[0]] + a[1..] && b == [b[0]] + b[1..];
    }
  }

  lemma TailMember<T(!new)>(less: (T, T) -> bool, s: seq<T>, x: T)
    requires PartialOrder(less) && Sorted(less, s) && s != []
    ensures x in s[1..] <==> x in s && x != s[0]
  {
    assert s == [s[0]] + s[1..];
  }

  // ----- lexicographic order on strings -----

  predicate StringLess(a: string, b: string) {
    b != [] && (a == [] || a[0] < b[0] || (a[0] == b[0] && StringLess(a[1..], b[1..])))
  }

  lemma {:induction false} StringLessTotal(a: string, b: string)
    ensures !StringLess(a, a)
    ensures a == b || StringLess(a, b) || StringLess(b, a)
  {
    if a != [] {
      StringLessTotal(a[1..], if b == [] then [] else b[1..]);
      if b != [] && a[0] == b[0] {
        assert a == [a[0]] + a[1..] && b == [b[0]] + b[1..];
      }
    }
  }

  lemma {:induction false} StringLessTransitive(a: string, b: string, c: string)
    requires StringLess(a, b) && StringLess(b, c)
    ensures StringLess(a, c)
  {
    if a != [] && a[0] == b[0] == c[0] {
      StringLessTransitive(a[1..], b[1..], c[1..]);
    }
  }

  lemma StringOrder()
    ensures StrictOrder(StringLess)
  {
    forall a, b
      ensures !StringLess(a, a) && (a == b || StringLess(a, b) || StringLess(b, a))
    {
      StringLessTotal(a, b);
    }
    forall a, b, c | StringLess(a, b) && StringLess(b, c)
      ensures StringLess(a, c)
    {
      StringLessTransitive(a, b, c);
    }
  }
}
