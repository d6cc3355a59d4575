/** Compiled conditions mean what their expressions mean, and bind their literals faithfully. */
module QueryMeaning {
  import opened Wrappers
  import opened QueryParser
  import opened QueryCompiler

  /** SQL's three truth values: a comparison with NULL is unknown. */
  datatype Tri = True | False | Unknown

  function Neg(a: Tri): Tri {
    match a case True => False case False => True case Unknown => Unknown
  }

  function Conj(a: Tri, b: Tri): Tri {
    if a == False || b == False then False else if a == True && b == True then True else Unknown
  }

  function Disj(a: Tri, b: Tri): Tri {
    if a == True || b == True then True else if a == False && b == False then False else Unknown
  }

  /** Any meaning of a leaf condition over its typed, bound values. */
  type LeafMeaning = (string, Form, seq<(string, string)>) -> Tri

  // ----- the SQL side: NOT binds tightest, then AND, then OR -----

  /** Values of the placeholders; None when one is unbound. */
  function Resolve(parameters: map<string, string>, p: seq<Placeholder>): Option<seq<(string, string)>> {
    if p == [] then Some([])
    else
      var rest := Resolve(parameters, p[..|p| - 1]);
      var last := p[|p| - 1];
      if rest.None? || ParameterName(last.name) !in parameters then None
      else Some(rest.value + [(last.sqlType, parameters[ParameterName(last.name)])])
  }

  type Reading = Option<(Tri, nat)>

  predicate Ahead(sql: seq<Sql>, i: nat, r: Reading) {
    r.Some? ==> i < r.value.1 <= |sql|
  }

  function ReadPrimary(m: LeafMeaning, parameters: map<string, string>, sql: seq<Sql>, i: nat): (r: Reading)
    requires i <= |sql|
    ensures Ahead(sql, i, r)
    decreases |sql| - i, 0
  {
    if i == |sql| then None
    else match sql[i]
      case Open =>
        (match ReadOr(m, parameters, sql, i + 1)
         case None => None
         case Some((b, j)) => if j < |sql| && sql[j] == Close then Some((b, j + 1)) else None)
      case Atom(column, form, placeholders) =>
        (match Resolve(parameters, placeholders)
         case None => None
         case Some(bound) => Some((m(column, form, bound), i + 1)))
      case _ => None
  }

  function ReadNot(m: LeafMeaning, parameters: map<string, string>, sql: seq<Sql>, i: nat): (r: Reading)
    requires i <= |sql|
    ensures Ahead(sql, i, r)
    decreases |sql| - i, 1
  {
    if i < |sql| && sql[i] == NotWord then
      match ReadNot(m, parameters, sql, i + 1)
      case None => None
      case Some((b, j)) => Some((Neg(b), j))
    else ReadPrimary(m, parameters, sql, i)
  }

  function ReadAnd(m: LeafMeaning, parameters: map<string, string>, sql: seq<Sql>, i: nat): (r: Reading)
    requires i <= |sql|
    ensures Ahead(sql, i, r)
    decreases |sql| - i, 2
  {
    match ReadNot(m, parameters, sql, i)
    case None => None
    case Some((a, j)) =>
      if j < |sql| && sql[j] == AndWord then
        match ReadAnd(m, parameters, sql, j + 1)
        case None => None
        case Some((b, k)) => Some((Conj(a, b), k))
      else Some((a, j))
  }

  function ReadOr(m: LeafMeaning, parameters: map<string, string>, sql: seq<Sql>, i: nat): (r: Reading)
    requires i <= |sql|
    ensures Ahead(sql, i, r)
    decreases |sql| - i, 3
  {
    match ReadAnd(m, parameters, sql, i)
    case None => None
    case Some((a, j)) =>
      if j < |sql| && sql[j] == OrWord then
        match ReadOr(m, parameters, sql, j + 1)
        case None => None
        case Some((b, k)) => Some((Disj(a, b), k))
      else Some((a, j))
  }

  /** The truth of a whole condition; None when it does not read or a placeholder is unbound. */
  function SqlTruth(m: LeafMeaning, parameters: map<string, string>, sql: seq<Sql>): Option<Tri> {
    match ReadOr(m, parameters, sql, 0)
    case None => None
    case Some((b, j)) => if j == |sql| then Some(b) else None
  }

  // ----- the expression side -----

  function TypedTexts(values: seq<Literal>): seq<(string, string)> {
    seq(|values|, i requires 0 <= i < |values| => (SqlType(values[i]), values[i].text))
  }

  function Truth(m: LeafMeaning, s: Schema, e: Expression): Tri
    requires Compiles(s, e)
  {
    match e
    case Or(l, r) => Disj(Truth(m, s, l), Truth(m, s, r))
    case And(l, r) => Conj(Truth(m, s, l), Truth(m, s, r))
    case Not(c) => Neg(Truth(m, s, c))
    case Leaf(p) => m(s.fields[p.field].expression, FormOf(s, p), TypedTexts(LeafLiterals(p)))
  }

  // ----- binding -----

  /** `values` are bound under the names from `n` on. */
  ghost predicate Binds(parameters: map<string, string>, n: nat, values: seq<Literal>) {
    forall i :: 0 <= i < |values| ==> IsBound(parameters, n + i, values[i])
  }

  predicate IsBound(parameters: map<string, string>, i: nat, v: Literal) {
    ParameterName(Name(i)) in parameters && parameters[ParameterName(Name(i))] == v.text
  }

  /** The parameters are exactly q0 … q(n-1), the i-th bound to the i-th literal. */
  lemma {:induction false} BoundExactly(values: seq<Literal>)
    ensures Binds(Bound(values), 0, values)
    ensures forall name :: name in Bound(values) <==> exists i :: 0 <= i < |values| && name == ParameterName(Name(i))
  {
    hide Name, ParameterName;
    if values != [] {
      var n := |values| - 1;
      BoundExactly(values[..n]);
      forall i | 0 <= i < |values|
        ensures IsBound(Bound(values), 0 + i, values[i])
      {
        if i < n {
          assert IsBound(Bound(values[..n]), 0 + i, values[..n][i]);
          if ParameterName(Name(i)) == ParameterName(Name(n)) {
            ParameterNameInjective(i, n);
          }
        }
      }
    }
  }

  function Placeholders(sql: seq<Sql>): seq<Placeholder> {
    if sql == [] then []
    else Placeholders(sql[..|sql| - 1]) + (if sql[|sql| - 1].Atom? then sql[|sql| - 1].placeholders else [])
  }

  lemma {:induction false} PlaceholdersAppend(a: seq<Sql>, b: seq<Sql>)
    ensures Placeholders(a + b) == Placeholders(a) + Placeholders(b)
  {
    if b == [] {
      assert a + b == a;
    } else {
      var n := |b| - 1;
      PlaceholdersAppend(a, b[..n]);
      assert (a + b)[..|a + b| - 1] == a + b[..n];
    }
  }

  lemma NumberedAppend(a: seq<Literal>, b: seq<Literal>, n: nat)
    ensures Numbered(a + b, n) == Numbered(a, n) + Numbered(b, n + |a|)
  {
  }

  lemma WordHasNone(w: Sql)
    requires !w.Atom?
    ensures Placeholders([w]) == []
  {
    assert [w][..0] == [];
  }

  /** Each literal's placeholder occurs once, in left-to-right order, under the next free name. */
  lemma {:induction false} PlaceholdersInOrder(s: Schema, e: Expression, n: nat)
    requires Compiles(s, e)
    ensures Placeholders(Emitted(s, e, n)) == Numbered(Literals(e), n)
  {
    hide Placeholders, Numbered, FormOf, LeafCompiles;
    if e.Leaf? {
      AtomPlaceholders(Emitted(s, e, n)[0]);
    } else if e.Not? {
      PlaceholdersInOrder(s, e.child, n);
      NegationPlaceholders(Emitted(s, e.child, n));
    } else {
      var l, r := e.left, e.right;
      var n' := n + |Literals(l)|;
      PlaceholdersInOrder(s, l, n);
      PlaceholdersInOrder(s, r, n');
      InfixPlaceholders(Emitted(s, l, n), Emitted(s, r, n'), if e.Or? then OrWord else AndWord);
      NumberedAppend(Literals(l), Literals(r), n);
    }
  }

  lemma AtomPlaceholders(atom: Sql)
    requires atom.Atom?
    ensures Placeholders([atom]) == atom.placeholders
  {
    assert [atom][..0] == [];
  }

  lemma NegationPlaceholders(a: seq<Sql>)
    ensures Placeholders([Open, NotWord] + a + [Close]) == Placeholders(a)
  {
    PlaceholdersAppend([Open, NotWord] + a, [Close]);
    PlaceholdersAppend([Open, NotWord], a);
    assert [Open, NotWord] == [Open] + [NotWord];
    PlaceholdersAppend([Open], [NotWord]);
    WordHasNone(Open);
    WordHasNone(NotWord);
    WordHasNone(Close);
  }

  lemma InfixPlaceholders(a: seq<Sql>, b: seq<Sql>, word: Sql)
    requires !word.Atom?
    ensures Placeholders([Open] + a + [word] + b + [Close]) == Placeholders(a) + Placeholders(b)
  {
    PlaceholdersAppend([Open], a);
    PlaceholdersAppend([Open] + a, [word]);
    PlaceholdersAppend([Open] + a + [word], b);
    PlaceholdersAppend([Open] + a + [word] + b, [Close]);
    WordHasNone(Open);
    WordHasNone(word);
    WordHasNone(Close);
  }

  /** A successful compilation names q0 … q(n-1), uses each once in order, and binds the i-th to the i-th literal. */
  lemma BindsFaithfully(s: Schema, e: Expression)
    requires Compiles(s, e)
    ensures var p := Placeholders(Emitted(s, e, 0));
            && |p| == |Literals(e)|
            && (forall i :: 0 <= i < |p| ==>
              p[i] == Placeholder(Name(i), SqlType(Literals(e)[i])) && IsBound(Bound(Literals(e)), i, Literals(e)[i]))
            && (forall i, j :: 0 <= i < j < |p| ==> p[i].name != p[j].name)
            && forall name :: name in Bound(Literals(e)) <==>
              exists i :: 0 <= i < |p| && name == ParameterName(p[i].name)
  {
    hide Bound, Emitted, Placeholders, Literals, Name, ParameterName, IsBound;
    PlaceholdersInOrder(s, e, 0);
    NumberedIsBound(Literals(e));
  }

  lemma NumberedIsBound(v: seq<Literal>)
    ensures var p := Numbered(v, 0);
            && (forall i :: 0 <= i < |p| ==> p[i] == Placeholder(Name(i), SqlType(v[i])) && IsBound(Bound(v), i, v[i]))
            && (forall i, j :: 0 <= i < j < |p| ==> p[i].name != p[j].name)
            && forall name :: name in Bound(v) <==> exists i :: 0 <= i < |p| && name == ParameterName(p[i].name)
  {
    BoundExactly(v);
    hide Bound, Name, ParameterName, IsBound;
    var p := Numbered(v, 0);
    forall i | 0 <= i < |p|
      ensures p[i] == Placeholder(Name(i), SqlType(v[i])) && IsBound(Bound(v), i, v[i])
    {
      assert IsBound(Bound(v), 0 + i, v[i]);
    }
    forall i, j | 0 <= i < j < |p|
      ensures p[i].name != p[j].name
    {
      if Name(i) == Name(j) {
        NameInjective(i, j);
      }
    }
  }

  // ----- meaning -----

  lemma {:induction false} ResolveNumbered(parameters: map<string, string>, values: seq<Literal>, n: nat)
    requires Binds(parameters, n, values)
    ensures Resolve(parameters, Numbered(values, n)) == Some(TypedTexts(values))
    decreases |values|
  {
    if values == [] {
      assert Numbered(values, n) == [] && TypedTexts(values) == [];
    } else {
      var k := |values| - 1;
      forall i | 0 <= i < k
        ensures IsBound(parameters, n + i, values[..k][i])
      {
        assert IsBound(parameters, n + i, values[i]);
      }
      ResolveNumbered(parameters, values[..k], n);
      assert Numbered(values, n)[..k] == Numbered(values[..k], n);
      assert IsBound(parameters, n + k, values[k]);
      assert TypedTexts(values) == TypedTexts(values[..k]) + [(SqlType(values[k]), values[k].text)];
    }
  }

  predicate Holds(sql: seq<Sql>, i: nat, part: seq<Sql>) {
    i + |part| <= |sql| && sql[i..i + |part|] == part
  }

  lemma Parts(sql: seq<Sql>, i: nat, a: seq<Sql>, b: seq<Sql>)
    requires Holds(sql, i, a + b)
    ensures Holds(sql, i, a) && Holds(sql, i + |a|, b)
  {
    assert sql[i..i + |a + b|][..|a|] == a && sql[i..i + |a + b|][|a|..] == b;
  }

  lemma Word(sql: seq<Sql>, i: nat, w: Sql)
    requires Holds(sql, i, [w])
    ensures i < |sql| && sql[i] == w
  {
    assert sql[i..i + 1][0] == w;
  }

  lemma BindsParts(parameters: map<string, string>, n: nat, a: seq<Literal>, b: seq<Literal>)
    requires Binds(parameters, n, a + b)
    ensures Binds(parameters, n, a) && Binds(parameters, n + |a|, b)
  {
    forall i | 0 <= i < |a|
      ensures IsBound(parameters, n + i, a[i])
    {
      assert IsBound(parameters, n + i, (a + b)[i]);
    }
    forall i | 0 <= i < |b|
      ensures IsBound(parameters, n + |a| + i, b[i])
    {
      assert IsBound(parameters, n + (|a| + i), (a + b)[|a| + i]);
    }
  }

  /** A parenthesised pair reads as its connective says. */
  lemma PairReads(
      m: LeafMeaning, parameters: map<string, string>, sql: seq<Sql>, i: nat, x: (Tri, nat), y: (Tri, nat), word: Sql)
    requires i < |sql| && sql[i] == Open && (word == OrWord || word == AndWord)
    requires ReadNot(m, parameters, sql, i + 1) == Some(x) && x.1 < |sql| && sql[x.1] == word
    requires ReadNot(m, parameters, sql, x.1 + 1) == Some(y) && y.1 < |sql| && sql[y.1] == Close
    ensures ReadNot(m, parameters, sql, i) == Some((if word == OrWord then Disj(x.0, y.0) else Conj(x.0, y.0), y.1 + 1))
  {
    assert ReadAnd(m, parameters, sql, x.1 + 1) == Some(y);
    if word == OrWord {
      assert ReadAnd(m, parameters, sql, i + 1) == Some(x);
      assert ReadOr(m, parameters, sql, x.1 + 1) == Some(y);
    } else {
      assert ReadAnd(m, parameters, sql, i + 1) == Some((Conj(x.0, y.0), y.1));
    }
    var inner := ReadOr(m, parameters, sql, i + 1);
    assert inner == Some((if word == OrWord then Disj(x.0, y.0) else Conj(x.0, y.0), y.1));
    assert ReadPrimary(m, parameters, sql, i) == Some((inner.value.0, y.1 + 1));
  }

  lemma NegationReads(m: LeafMeaning, parameters: map<string, string>, sql: seq<Sql>, i: nat, x: (Tri, nat))
    requires i + 1 < |sql| && sql[i] == Open && sql[i + 1] == NotWord
    requires ReadNot(m, parameters, sql, i + 2) == Some(x) && x.1 < |sql| && sql[x.1] == Close
    ensures ReadNot(m, parameters, sql, i) == Some((Neg(x.0), x.1 + 1))
  {
    assert ReadNot(m, parameters, sql, i + 1) == Some((Neg(x.0), x.1));
    assert ReadAnd(m, parameters, sql, i + 1) == Some((Neg(x.0), x.1));
    assert ReadOr(m, parameters, sql, i + 1) == Some((Neg(x.0), x.1));
    assert ReadPrimary(m, parameters, sql, i) == Some((Neg(x.0), x.1 + 1));
  }

  lemma PairParts(sql: seq<Sql>, i: nat, x: seq<Sql>, word: Sql, y: seq<Sql>)
    requires Holds(sql, i, [Open] + x + [word] + y + [Close])
    ensures i < |sql| && sql[i] == Open && Holds(sql, i + 1, x)
    ensures var k := i + 1 + |x|;
            && k < |sql| && sql[k] == word && Holds(sql, k + 1, y)
            && k + 1 + |y| < |sql| && sql[k + 1 + |y|] == Close
  {
    hide Holds;
    assert [Open] + x + [word] + y + [Close] == [Open] + (x + ([word] + (y + [Close])));
    Parts(sql, i, [Open], x + ([word] + (y + [Close])));
    Parts(sql, i + 1, x, [word] + (y + [Close]));
    var k := i + 1 + |x|;
    Parts(sql, k, [word], y + [Close]);
    Parts(sql, k + 1, y, [Close]);
    Word(sql, i, Open);
    Word(sql, k, word);
    Word(sql, k + 1 + |y|, Close);
  }

  lemma NegationParts(sql: seq<Sql>, i: nat, x: seq<Sql>)
    requires Holds(sql, i, [Open, NotWord] + x + [Close])
    ensures i + 1 < |sql| && sql[i] == Open && sql[i + 1] == NotWord && Holds(sql, i + 2, x)
    ensures i + 2 + |x| < |sql| && sql[i + 2 + |x|] == Close
  {
    hide Holds;
    assert [Open, NotWord] + x + [Close] == [Open] + ([NotWord] + (x + [Close]));
    Parts(sql, i, [Open], [NotWord] + (x + [Close]));
    Parts(sql, i + 1, [NotWord], x + [Close]);
    Parts(sql, i + 2, x, [Close]);
    Word(sql, i, Open);
    Word(sql, i + 1, NotWord);
    Word(sql, i + 2 + |x|, Close);
  }

  /** Wherever an emitted condition stands, it reads as one primary with the expression's truth. */
  lemma {:induction false} ReadsAs(
      m: LeafMeaning, parameters: map<string, string>, s: Schema, e: Expression, n: nat, sql: seq<Sql>, i: nat)
    requires Compiles(s, e) && Binds(parameters, n, Literals(e)) && Holds(sql, i, Emitted(s, e, n))
    ensures ReadNot(m, parameters, sql, i) == Some((Truth(m, s, e), i + |Emitted(s, e, n)|))
    decreases e
  {
    hide *;
    Unfold(m, s, e, n);
    if e.Leaf? {
      ResolveNumbered(parameters, LeafLiterals(e.predicate_), n);
      LeafReads(m, parameters, s, e.predicate_, n, sql, i);
    } else if e.Not? {
      var x := Emitted(s, e.child, n);
      NegationParts(sql, i, x);
      ReadsAs(m, parameters, s, e.child, n, sql, i + 2);
      NegationReads(m, parameters, sql, i, (Truth(m, s, e.child), i + 2 + |x|));
    } else {
      var l, r := e.left, e.right;
      var n' := n + |Literals(l)|;
      var x, y := Emitted(s, l, n), Emitted(s, r, n');
      var word := if e.Or? then OrWord else AndWord;
      PairParts(sql, i, x, word, y);
      BindsParts(parameters, n, Literals(l), Literals(r));
      ReadsAs(m, parameters, s, l, n, sql, i + 1);
      ReadsAs(m, parameters, s, r, n', sql, i + 2 + |x|);
      PairReads(m, parameters, sql, i, (Truth(m, s, l), i + 1 + |x|), (Truth(m, s, r), i + 2 + |x| + |y|), word);
    }
  }

  /** What the expression's own functions say one level down. */
  lemma Unfold(m: LeafMeaning, s: Schema, e: Expression, n: nat)
    requires Compiles(s, e)
    ensures e.Leaf? ==> LeafCompiles(s, e.predicate_) && Literals(e) == LeafLiterals(e.predicate_)
                        && |Emitted(s, e, n)| == 1 && e == Leaf(e.predicate_)
    ensures e.Not? ==> Compiles(s, e.child) && Literals(e) == Literals(e.child)
                       && Truth(m, s, e) == Neg(Truth(m, s, e.child))
                       && Emitted(s, e, n) == [Open, NotWord] + Emitted(s, e.child, n) + [Close]
    ensures e.Or? || e.And? ==>
              && Compiles(s, e.left) && Compiles(s, e.right) && Literals(e) == Literals(e.left) + Literals(e.right)
              && Truth(m, s, e) == (if e.Or? then Disj(Truth(m, s, e.left), Truth(m, s, e.right))
                                    else Conj(Truth(m, s, e.left), Truth(m, s, e.right)))
              && Emitted(s, e, n) == [Open] + Emitted(s, e.left, n) + [if e.Or? then OrWord else AndWord]
                                     + Emitted(s, e.right, n + |Literals(e.left)|) + [Close]
  {
    hide LeafCompiles, FormOf, Numbered;
  }

  lemma LeafReads(
      m: LeafMeaning, parameters: map<string, string>, s: Schema, p: Predicate, n: nat, sql: seq<Sql>, i: nat)
    requires LeafCompiles(s, p) && Holds(sql, i, Emitted(s, Leaf(p), n))
    requires Resolve(parameters, Numbered(LeafLiterals(p), n)) == Some(TypedTexts(LeafLiterals(p)))
    ensures ReadNot(m, parameters, sql, i) == Some((Truth(m, s, Leaf(p)), i + 1))
  {
    hide FormOf, LeafCompiles;
    Word(sql, i, Emitted(s, Leaf(p), n)[0]);
  }

  /** The condition, with its own parameters, has the expression's truth value, whatever the leaves mean. */
  lemma CompilationKeepsMeaning(m: LeafMeaning, s: Schema, e: Expression)
    requires Compiles(s, e)
    ensures SqlTruth(m, Bound(Literals(e)), Emitted(s, e, 0)) == Some(Truth(m, s, e))
  {
    var sql, parameters := Emitted(s, e, 0), Bound(Literals(e));
    BoundExactly(Literals(e));
    ReadsAs(m, parameters, s, e, 0, sql, 0);
    hide Emitted, Bound, ReadNot, Truth;
    assert ReadAnd(m, parameters, sql, 0) == Some((Truth(m, s, e), |sql|));
  }
}
