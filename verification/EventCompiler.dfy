/** EVENT rules: from the detection tree to the compiled predicate and its short-circuiting evaluation. */
module EventCompiler {
  import opened Wrappers

  datatype Operator = Eq | Ne | Gt | Gte | Lt | Lte | In | NotIn | Contains | StartsWith | EndsWith | Matches

  datatype LeafTest<F, V> = Comparison(field: F, operator: Operator, value: V) | Exists(field: F)

  /** The detection tree a rule is parsed to. */
  datatype Tree<F, V> =
    | AndTree(children: seq<Tree<F, V>>)
    | OrTree(children: seq<Tree<F, V>>)
    | NotTree(child: Tree<F, V>)
    | LeafTree(leaf: LeafTest<F, V>)

  /** The predicate an execution plan carries. */
  datatype Predicate<F, V> =
    | AndPredicate(parts: seq<Predicate<F, V>>) | OrPredicate(parts: seq<Predicate<F, V>>)
    | NotPredicate(part: Predicate<F, V>) | LeafPredicate(test: LeafTest<F, V>)

  datatype FieldState<X> = Present(value: X) | Absent | Null | Malformed

  /** One event seen by one rule: the state of each field and the rule's own leaf semantics. */
  datatype Scene<!F, !V, !X, !E> =
    Scene(state: F -> FieldState<X>, test: (LeafTest<F, V>, FieldState<X>) -> Result<bool, E>)

  /** A result together with the leaves asked for it, in order. */
  datatype Outcome<F, V, E> = Outcome(result: Result<bool, E>, asked: seq<LeafTest<F, V>>)

  function AskLeaf<F, V, X, E>(s: Scene<F, V, X, E>, leaf: LeafTest<F, V>): Outcome<F, V, E> {
    Outcome(s.test(leaf, s.state(leaf.field)), [leaf])
  }

  function Negate<F, V, E>(o: Outcome<F, V, E>): Outcome<F, V, E> {
    Outcome(match o.result case Ok(b) => Ok(!b) case Err(e) => Err(e), o.asked)
  }

  // ----- the evaluator -----

  function Evaluate<F, V, X, E>(s: Scene<F, V, X, E>, p: Predicate<F, V>): Outcome<F, V, E>
    decreases p, 1, 0
  {
    match p
    case AndPredicate(parts) => EvaluateFrom(s, p, parts, 0, true)
    case OrPredicate(parts) => EvaluateFrom(s, p, parts, 0, false)
    case NotPredicate(part) => Negate(Evaluate(s, part))
    case LeafPredicate(test) => AskLeaf(s, test)
  }

  /** Children from `i` on, while each answers `go`. */
  function EvaluateFrom<F, V, X, E>(
      s: Scene<F, V, X, E>, ghost p: Predicate<F, V>, parts: seq<Predicate<F, V>>, i: nat, go: bool): Outcome<F, V, E>
    requires i <= |parts| && forall j :: 0 <= j < |parts| ==> parts[j] < p
    decreases p, 0, |parts| - i
  {
    if i == |parts| then Outcome(Ok(go), [])
    else
      var here := Evaluate(s, parts[i]);
      if here.result != Ok(go) then here
      else
        var rest := EvaluateFrom(s, p, parts, i + 1, go);
        Outcome(rest.result, here.asked + rest.asked)
  }

  // ----- what a tree means -----

  /** Ask every child, then keep the leading run that answers `go` and the child that ends it. */
  function Meaning<F, V, X, E>(s: Scene<F, V, X, E>, t: Tree<F, V>): Outcome<F, V, E> {
    match t
    case AndTree(children) => Cut(seq(|children|, i requires 0 <= i < |children| => Meaning(s, children[i])), true)
    case OrTree(children) => Cut(seq(|children|, i requires 0 <= i < |children| => Meaning(s, children[i])), false)
    case NotTree(child) => Negate(Meaning(s, child))
    case LeafTree(leaf) => AskLeaf(s, leaf)
  }

  /** Length of the leading run of outcomes that answer `go`. */
  function RunLength<F, V, E>(outcomes: seq<Outcome<F, V, E>>, go: bool): (n: nat)
    ensures n <= |outcomes|
    ensures forall i :: 0 <= i < n ==> outcomes[i].result == Ok(go)
    ensures n < |outcomes| ==> outcomes[n].result != Ok(go)
  {
    if outcomes == [] || outcomes[0].result != Ok(go) then 0 else 1 + RunLength(outcomes[1..], go)
  }

  function AskedIn<F, V, E>(outcomes: seq<Outcome<F, V, E>>): seq<LeafTest<F, V>> {
    if outcomes == [] then [] else outcomes[0].asked + AskedIn(outcomes[1..])
  }

  function Cut<F, V, E>(outcomes: seq<Outcome<F, V, E>>, go: bool): Outcome<F, V, E> {
    var n := RunLength(outcomes, go);
    if n == |outcomes| then Outcome(Ok(go), AskedIn(outcomes))
    else Outcome(outcomes[n].result, AskedIn(outcomes[..n + 1]))
  }

  // ----- lowering -----

  function Lower<F, V>(t: Tree<F, V>): Predicate<F, V> {
    match t
    case AndTree(children) => AndPredicate(seq(|children|, i requires 0 <= i < |children| => Lower(children[i])))
    case OrTree(children) => OrPredicate(seq(|children|, i requires 0 <= i < |children| => Lower(children[i])))
    case NotTree(child) => NotPredicate(Lower(child))
    case LeafTree(leaf) => LeafPredicate(leaf)
  }

  lemma CutCons<F, V, E>(outcomes: seq<Outcome<F, V, E>>, go: bool)
    requires outcomes != []
    ensures Cut(outcomes, go) == if outcomes[0].result != Ok(go) then outcomes[0]
                                 else Outcome(Cut(outcomes[1..], go).result,
                                   outcomes[0].asked + Cut(outcomes[1..], go).asked)
  {
    var n := RunLength(outcomes, go);
    if outcomes[0].result != Ok(go) {
      assert outcomes[..1][1..] == [];
      assert AskedIn(outcomes[..1]) == outcomes[0].asked;
    } else {
      var rest := outcomes[1..];
      assert n == 1 + RunLength(rest, go);
      if n < |outcomes| {
        assert outcomes[..n + 1][1..] == rest[..n];
      }
    }
  }

  lemma {:induction false} EvaluateCuts<F, V, X, E>(
    s: Scene<F, V, X, E>, p: Predicate<F, V>, parts: seq<Predicate<F, V>>, i: nat, go: bool, outcomes: seq<Outcome<F,
    V, E>>)
    requires i <= |parts| == |outcomes| && forall j :: 0 <= j < |parts| ==> parts[j] < p
    requires forall j :: 0 <= j < |parts| ==> Evaluate(s, parts[j]) == outcomes[j]
    ensures EvaluateFrom(s, p, parts, i, go) == Cut(outcomes[i..], go)
    decreases |parts| - i
  {
    if i < |parts| {
      EvaluateCuts(s, p, parts, i + 1, go, outcomes);
      CutCons(outcomes[i..], go);
      assert outcomes[i..][1..] == outcomes[i + 1..];
    }
  }

  /** The lowered predicate gives the tree's result, and stops at the same leaf, errors included. */
  lemma {:induction false} LoweringKeepsMeaning<F, V, X, E>(s: Scene<F, V, X, E>, t: Tree<F, V>)
    ensures Evaluate(s, Lower(t)) == Meaning(s, t)
    decreases t
  {
    if t.NotTree? {
      LoweringKeepsMeaning(s, t.child);
    } else if !t.LeafTree? {
      var p := Lower(t);
      var outcomes := seq(|t.children|, i requires 0 <= i < |t.children| => Meaning(s, t.children[i]));
      forall j | 0 <= j < |p.parts|
        ensures Evaluate(s, p.parts[j]) == outcomes[j]
      {
        LoweringKeepsMeaning(s, t.children[j]);
      }
      EvaluateCuts(s, p, p.parts, 0, t.AndTree?, outcomes);
      assert outcomes[0..] == outcomes;
    }
  }

  // ----- what evaluation decides -----

  /** The truth of a tree whose leaves all answer. */
  ghost predicate IsTrue<F, V, X, E>(s: Scene<F, V, X, E>, t: Tree<F, V>) {
    match t
    case AndTree(children) => forall i | 0 <= i < |children| :: IsTrue(s, children[i])
    case OrTree(children) => exists i | 0 <= i < |children| :: IsTrue(s, children[i])
    case NotTree(child) => !IsTrue(s, child)
    case LeafTree(leaf) => s.test(leaf, s.state(leaf.field)) == Ok(true)
  }

  ghost predicate AllAnswer<F, V, X, E>(s: Scene<F, V, X, E>, t: Tree<F, V>) {
    match t
    case AndTree(children) => forall i | 0 <= i < |children| :: AllAnswer(s, children[i])
    case OrTree(children) => forall i | 0 <= i < |children| :: AllAnswer(s, children[i])
    case NotTree(child) => AllAnswer(s, child)
    case LeafTree(leaf) => s.test(leaf, s.state(leaf.field)).Ok?
  }

  /**
   * The result, errors included: AND and OR give their first child's that settles them, in order, and
   * true or false when none does; NOT inverts a match, and passes an error on.
   */
  ghost predicate Decides<F, V, X, E>(s: Scene<F, V, X, E>, t: Tree<F, V>, r: Result<bool, E>) {
    match t
    case AndTree(children) =>
      || (r == Ok(true) && forall i | 0 <= i < |children| :: Decides(s, children[i], Ok(true)))
      || (r != Ok(true) && exists i | 0 <= i < |children| ::
            Decides(s, children[i], r) && forall j | 0 <= j < i :: Decides(s, children[j], Ok(true)))
    case OrTree(children) =>
      || (r == Ok(false) && forall i | 0 <= i < |children| :: Decides(s, children[i], Ok(false)))
      || (r != Ok(false) && exists i | 0 <= i < |children| ::
            Decides(s, children[i], r) && forall j | 0 <= j < i :: Decides(s, children[j], Ok(false)))
    case NotTree(child) => if r.Ok? then Decides(s, child, Ok(!r.value)) else Decides(s, child, r)
    case LeafTree(leaf) => r == s.test(leaf, s.state(leaf.field))
  }

  /** The first outcome other than `go` is the result of a cut. */
  lemma CutDecides<F, V, E>(outcomes: seq<Outcome<F, V, E>>, go: bool, r: Result<bool, E>)
    ensures Cut(outcomes, go).result == r <==>
            || (r == Ok(go) && forall i | 0 <= i < |outcomes| :: outcomes[i].result == Ok(go))
            || (r != Ok(go) && exists i | 0 <= i < |outcomes| ::
                  outcomes[i].result == r && forall j | 0 <= j < i :: outcomes[j].result == Ok(go))
  {
    var n := RunLength(outcomes, go);
    if n < |outcomes| {
      assert outcomes[n].result != Ok(go);
      forall i | 0 <= i < |outcomes| && outcomes[i].result != Ok(go)
                 && forall j | 0 <= j < i :: outcomes[j].result == Ok(go)
        ensures i == n
      {
      }
    }
  }

  /** Evaluation gives exactly the result the tree decides. */
  lemma {:induction false} EvaluationDecides<F, V, X, E>(s: Scene<F, V, X, E>, t: Tree<F, V>, r: Result<bool, E>)
    ensures Decides(s, t, r) <==> Evaluate(s, Lower(t)).result == r
  {
    LoweringKeepsMeaning(s, t);
    MeaningDecides(s, t, r);
  }

  lemma {:induction false} MeaningDecides<F, V, X, E>(s: Scene<F, V, X, E>, t: Tree<F, V>, r: Result<bool, E>)
    ensures Decides(s, t, r) <==> Meaning(s, t).result == r
    decreases t
  {
    match t
    case LeafTree(_) =>
    case NotTree(child) =>
      MeaningDecides(s, child, if r.Ok? then Ok(!r.value) else r);
      NotResult(s, child, r);
    case AndTree(children) => ChildrenDecide(s, t, children, true, r);
    case OrTree(children) => ChildrenDecide(s, t, children, false, r);
  }

  lemma NotResult<F, V, X, E>(s: Scene<F, V, X, E>, child: Tree<F, V>, r: Result<bool, E>)
    ensures Meaning(s, NotTree(child)).result == r <==>
            Meaning(s, child).result == if r.Ok? then Ok(!r.value) else r
  {
  }

  lemma {:induction false} ChildrenDecide<F, V, X, E>(
      s: Scene<F, V, X, E>, t: Tree<F, V>, children: seq<Tree<F, V>>, go: bool, r: Result<bool, E>)
    requires t == if go then AndTree(children) else OrTree(children)
    ensures Decides(s, t, r) <==> Meaning(s, t).result == r
    decreases t, 0
  {
    var outcomes := seq(|children|, i requires 0 <= i < |children| => Meaning(s, children[i]));
    forall i | 0 <= i < |children|
      ensures Decides(s, children[i], r) <==> outcomes[i].result == r
      ensures Decides(s, children[i], Ok(go)) <==> outcomes[i].result == Ok(go)
    {
      MeaningDecides(s, children[i], r);
      MeaningDecides(s, children[i], Ok(go));
    }
    CutDecides(outcomes, go, r);
    assert Meaning(s, t) == Cut(outcomes, go);
  }

  /** On a scene whose leaves all answer, evaluation gives the tree's truth. */
  lemma {:induction false} EvaluationIsTruth<F, V, X, E>(s: Scene<F, V, X, E>, t: Tree<F, V>)
    requires AllAnswer(s, t)
    ensures Evaluate(s, Lower(t)).result == Ok(IsTrue(s, t))
  {
    TruthDecided(s, t);
    EvaluationDecides(s, t, Ok(IsTrue(s, t)));
  }

  lemma {:induction false} TruthDecided<F, V, X, E>(s: Scene<F, V, X, E>, t: Tree<F, V>)
    requires AllAnswer(s, t)
    ensures Decides(s, t, Ok(IsTrue(s, t)))
    decreases t
  {
    match t
    case LeafTree(leaf) =>
      var answer := s.test(leaf, s.state(leaf.field));
      if answer.value {
        assert answer == Ok(true);
      } else {
        assert answer == Ok(false);
      }
    case NotTree(child) => TruthDecided(s, child);
    case AndTree(children) =>
      forall i | 0 <= i < |children|
        ensures Decides(s, children[i], Ok(IsTrue(s, children[i])))
      {
        TruthDecided(s, children[i]);
      }
      if !IsTrue(s, t) {
        var i := FirstOf(s, children, false);
      }
    case OrTree(children) =>
      forall i | 0 <= i < |children|
        ensures Decides(s, children[i], Ok(IsTrue(s, children[i])))
      {
        TruthDecided(s, children[i]);
      }
      if IsTrue(s, t) {
        var i := FirstOf(s, children, true);
      }
  }

  lemma FirstOf<F, V, X, E>(s: Scene<F, V, X, E>, children: seq<Tree<F, V>>, truth: bool) returns (i: nat)
    requires exists j | 0 <= j < |children| :: IsTrue(s, children[j]) == truth
    ensures i < |children| && IsTrue(s, children[i]) == truth
    ensures forall j | 0 <= j < i :: IsTrue(s, children[j]) != truth
  {
    i := 0;
    while IsTrue(s, children[i]) != truth
      invariant i < |children| && forall j | 0 <= j < i :: IsTrue(s, children[j]) != truth
      decreases |children| - i
    {
      i := i + 1;
    }
  }

  // ----- compilation -----

  datatype Failure = SyntaxError | UnknownField | TypeError | InvalidOperator | InvalidWindow | UnsupportedBackend
    | InvalidMapping | ResourcePolicyViolation

  datatype Backend = ClickHouse | Stream

  /** Every AND and OR has a child. */
  predicate WellFormed<F, V>(t: Tree<F, V>) {
    match t
    case AndTree(children) => children != [] && forall i :: 0 <= i < |children| ==> WellFormed(children[i])
    case OrTree(children) => children != [] && forall i :: 0 <= i < |children| ==> WellFormed(children[i])
    case NotTree(child) => WellFormed(child)
    case LeafTree(_) => true
  }

  predicate NoEmptyParts<F, V>(p: Predicate<F, V>) {
    match p
    case AndPredicate(parts) => parts != [] && forall i :: 0 <= i < |parts| ==> NoEmptyParts(parts[i])
    case OrPredicate(parts) => parts != [] && forall i :: 0 <= i < |parts| ==> NoEmptyParts(parts[i])
    case NotPredicate(part) => NoEmptyParts(part)
    case LeafPredicate(_) => true
  }

  lemma {:induction false} LoweringKeepsShape<F, V>(t: Tree<F, V>)
    ensures NoEmptyParts(Lower(t)) <==> WellFormed(t)
    decreases t
  {
    if t.NotTree? {
      LoweringKeepsShape(t.child);
    } else if !t.LeafTree? {
      var parts := Lower(t).parts;
      forall i | 0 <= i < |t.children|
        ensures NoEmptyParts(parts[i]) <==> WellFormed(t.children[i])
      {
        LoweringKeepsShape(t.children[i]);
      }
      if WellFormed(t) {
        assert forall i :: 0 <= i < |parts| ==> NoEmptyParts(parts[i]);
      } else if t.children != [] {
        var i :| 0 <= i < |t.children| && !WellFormed(t.children[i]);
        assert !NoEmptyParts(parts[i]);
      }
    }
  }

  /** The first leaf, left to right, that does not type. */
  function TypeCheck<F, V>(check: LeafTest<F, V> -> Option<Failure>, t: Tree<F, V>): Option<Failure>
    decreases t, 1, 0
  {
    match t
    case AndTree(children) => TypeCheckFrom(check, t, children, 0)
    case OrTree(children) => TypeCheckFrom(check, t, children, 0)
    case NotTree(child) => TypeCheck(check, child)
    case LeafTree(leaf) => check(leaf)
  }

  function TypeCheckFrom<F, V>(
      check: LeafTest<F, V> -> Option<Failure>, ghost t: Tree<F, V>, children: seq<Tree<F, V>>, i: nat)
    : Option<Failure>
    requires i <= |children| && forall j :: 0 <= j < |children| ==> children[j] < t
    decreases t, 0, |children| - i
  {
    if i == |children| then None
    else
      var here := TypeCheck(check, children[i]);
      if here.Some? then here else TypeCheckFrom(check, t, children, i + 1)
  }

  /** The leaves of a tree, left to right. */
  function Leaves<F, V>(t: Tree<F, V>): seq<LeafTest<F, V>>
    decreases t, 1, 0
  {
    match t
    case AndTree(children) => LeavesFrom(t, children, 0)
    case OrTree(children) => LeavesFrom(t, children, 0)
    case NotTree(child) => Leaves(child)
    case LeafTree(leaf) => [leaf]
  }

  function LeavesFrom<F, V>(ghost t: Tree<F, V>, children: seq<Tree<F, V>>, i: nat): seq<LeafTest<F, V>>
    requires i <= |children| && forall j :: 0 <= j < |children| ==> children[j] < t
    decreases t, 0, |children| - i
  {
    if i == |children| then [] else Leaves(children[i]) + LeavesFrom(t, children, i + 1)
  }

  /** `f` is the failure of the first leaf that has one; None when every leaf types. */
  ghost predicate FirstFailure<F, V>(
      check: LeafTest<F, V> -> Option<Failure>, leaves: seq<LeafTest<F, V>>, f: Option<Failure>) {
    if f.None? then forall i | 0 <= i < |leaves| :: check(leaves[i]).None?
    else exists i | 0 <= i < |leaves| :: check(leaves[i]) == f && forall j | 0 <= j < i :: check(leaves[j]).None?
  }

  lemma FirstFailureJoins<F, V>(
      check: LeafTest<F, V> -> Option<Failure>, a: seq<LeafTest<F, V>>, b: seq<LeafTest<F, V>>, f: Option<Failure>,
      g: Option<Failure>)
    requires FirstFailure(check, a, f) && FirstFailure(check, b, g)
    ensures FirstFailure(check, a + b, if f.Some? then f else g)
  {
    if f.Some? {
      var i :| 0 <= i < |a| && check(a[i]) == f && forall j | 0 <= j < i :: check(a[j]).None?;
      assert (a + b)[i] == a[i] && forall j | 0 <= j < i :: (a + b)[j] == a[j];
    } else if g.Some? {
      var i :| 0 <= i < |b| && check(b[i]) == g && forall j | 0 <= j < i :: check(b[j]).None?;
      assert (a + b)[|a| + i] == b[i];
    }
  }

  /** Type checking reports the first leaf, left to right, that does not type. */
  lemma {:induction false} TypeCheckFindsFirst<F, V>(check: LeafTest<F, V> -> Option<Failure>, t: Tree<F, V>)
    ensures FirstFailure(check, Leaves(t), TypeCheck(check, t))
    decreases t, 1, 0
  {
    match t
    case AndTree(children) => TypeCheckFromFindsFirst(check, t, children, 0);
    case OrTree(children) => TypeCheckFromFindsFirst(check, t, children, 0);
    case NotTree(child) => TypeCheckFindsFirst(check, child);
    case LeafTree(leaf) => assert [leaf][0] == leaf;
  }

  lemma {:induction false} TypeCheckFromFindsFirst<F, V>(
      check: LeafTest<F, V> -> Option<Failure>, t: Tree<F, V>, children: seq<Tree<F, V>>, i: nat)
    requires i <= |children| && forall j :: 0 <= j < |children| ==> children[j] < t
    ensures FirstFailure(check, LeavesFrom(t, children, i), TypeCheckFrom(check, t, children, i))
    decreases t, 0, |children| - i
  {
    if i < |children| {
      TypeCheckFindsFirst(check, children[i]);
      TypeCheckFromFindsFirst(check, t, children, i + 1);
      FirstFailureJoins(check, Leaves(children[i]), LeavesFrom(t, children, i + 1), TypeCheck(check, children[i]),
        TypeCheckFrom(check, t, children, i + 1));
    }
  }

  /** The stages the compiler is given. */
  datatype Stages<!F, !V, !Profile, !Plan> = Stages(
    check: LeafTest<F, V> -> Option<Failure>,
    optimize: Tree<F, V> -> Result<Tree<F, V>, Failure>,
    profile: Tree<F, V> -> Result<Profile, Failure>,
    supported: (Predicate<F, V>, Profile) -> Result<set<Backend>, Failure>,
    plan: (Backend, Predicate<F, V>, Profile) -> Result<Plan, Failure>)

  datatype Compiled<Profile, Plan> = Compiled(plan: Plan, profile: Profile, supported: set<Backend>)

  function Checked<F, V>(check: LeafTest<F, V> -> Option<Failure>, t: Tree<F, V>): Result<(), Failure> {
    if !WellFormed(t) then Err(SyntaxError)
    else match TypeCheck(check, t)
      case Some(failure) => Err(failure)
      case None => Ok(())
  }

  function Compile<F, V, Profile, Plan>(
      t: Tree<F, V>, backend: Backend, stages: Stages<F, V, Profile, Plan>): Result<Compiled<Profile, Plan>, Failure> {
    var _ :- Checked(stages.check, t);
    var optimized :- stages.optimize(t);
    var _ :- Checked(stages.check, optimized);
    var profile :- stages.profile(optimized);
    var predicate_ := Lower(optimized);
    var supported :- stages.supported(predicate_, profile);
    if backend !in supported then Err(UnsupportedBackend)
    else
      var plan :- stages.plan(backend, predicate_, profile);
      Ok(Compiled(plan, profile, supported))
  }

  /** A tree the compiler accepts: no empty AND or OR, and every leaf types. */
  ghost predicate Accepted<F, V>(check: LeafTest<F, V> -> Option<Failure>, t: Tree<F, V>) {
    WellFormed(t) && forall i | 0 <= i < |Leaves(t)| :: check(Leaves(t)[i]).None?
  }

  lemma CheckedIff<F, V>(check: LeafTest<F, V> -> Option<Failure>, t: Tree<F, V>)
    ensures Checked(check, t).Ok? <==> Accepted(check, t)
    ensures Checked(check, t).Err? ==>
              if WellFormed(t) then FirstFailure(check, Leaves(t), Some(Checked(check, t).error))
              else Checked(check, t).error == SyntaxError
  {
    TypeCheckFindsFirst(check, t);
  }

  /** The stages after optimization succeed, and the backend is supported. */
  predicate Plannable<F, V, Profile, Plan>(t: Tree<F, V>, backend: Backend, stages: Stages<F, V, Profile, Plan>) {
    && stages.profile(t).Ok? && stages.supported(Lower(t), stages.profile(t).value).Ok?
    && backend in stages.supported(Lower(t), stages.profile(t).value).value
    && stages.plan(backend, Lower(t), stages.profile(t).value).Ok?
  }

  /**
   * Compilation succeeds exactly when the tree and its optimized form are accepted, every stage
   * succeeds, and the backend is one the profile supports.
   */
  lemma CompilesIff<F, V, Profile, Plan>(t: Tree<F, V>, backend: Backend, stages: Stages<F, V, Profile, Plan>)
    ensures Compile(t, backend, stages).Ok? <==>
            && Accepted(stages.check, t) && stages.optimize(t).Ok?
            && Accepted(stages.check, stages.optimize(t).value) && Plannable(stages.optimize(t).value, backend, stages)
  {
    CheckedIff(stages.check, t);
    if stages.optimize(t).Ok? {
      CheckedIff(stages.check, stages.optimize(t).value);
    }
  }

  /** The planner keeps the predicate it was given. */
  ghost predicate KeepsPredicate<F(!new), V(!new), Profile(!new), Plan(!new)>(
    stages: Stages<F, V, Profile, Plan>, predicateOf: Plan -> Predicate<F, V>)
  {
    forall backend, p, profile :: stages.plan(backend, p, profile).Ok? ==>
      predicateOf(stages.plan(backend, p, profile).value) == p
  }

  /** The optimizer keeps results; when `exactly`, also the leaves asked. */
  ghost predicate KeepsMeaning<F(!new), V(!new), X(!new), E(!new)>(
    s: Scene<F, V, X, E>, optimize: Tree<F, V> -> Result<Tree<F, V>, Failure>, exactly: bool)
  {
    forall t :: optimize(t).Ok? ==>
      var optimized := optimize(t).value;
      Meaning(s, optimized).result == Meaning(s, t).result && (exactly ==> Meaning(s, optimized) == Meaning(s, t))
  }

  /**
   * Compilation preserves meaning: evaluating a successful plan gives the source tree's match,
   * no-match or error, stops at the same leaf when the optimizer does, and holds no empty AND or OR.
   */
  lemma CompilationKeepsMeaning<F(!new), V(!new), X(!new), E(!new), Profile(!new), Plan(!new)>(
    s: Scene<F, V, X, E>, t: Tree<F, V>, backend: Backend, stages: Stages<F, V, Profile, Plan>,
    predicateOf: Plan -> Predicate<F, V>, exactly: bool)
    requires KeepsPredicate(stages, predicateOf) && KeepsMeaning(s, stages.optimize, exactly)
    requires Compile(t, backend, stages).Ok?
    ensures var p := predicateOf(Compile(t, backend, stages).value.plan);
            && NoEmptyParts(p) && backend in Compile(t, backend, stages).value.supported
            && Decides(s, t, Evaluate(s, p).result)
            && (AllAnswer(s, t) ==> Evaluate(s, p).result == Ok(IsTrue(s, t)))
            && (exactly ==> Evaluate(s, p) == Meaning(s, t))
  {
    var optimized := stages.optimize(t).value;
    LoweringKeepsMeaning(s, optimized);
    LoweringKeepsShape(optimized);
    MeaningDecides(s, t, Meaning(s, t).result);
    if AllAnswer(s, t) {
      TruthDecided(s, t);
      MeaningDecides(s, t, Ok(IsTrue(s, t)));
    }
  }
}
