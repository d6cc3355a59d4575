/** The grammar of the search language, and why the parser accepts exactly its sentences. */
module QueryGrammar {
  import opened Wrappers
  import opened QueryParser

  /** A derivation: an expression with its written parentheses. */
  datatype Tree = OrTree(left: Tree, right: Tree) | AndTree(left: Tree, right: Tree) | NotTree(child: Tree)
    | Group(inner: Tree) | LeafTree(leaf: Predicate)

  function Strip(t: Tree): Expression {
    match t
    case OrTree(l, r) => Or(Strip(l), Strip(r))
    case AndTree(l, r) => And(Strip(l), Strip(r))
    case NotTree(c) => Not(Strip(c))
    case Group(c) => Strip(c)
    case LeafTree(p) => Leaf(p)
  }

  /** What a level of the grammar may begin with, loosest first. */
  datatype Level = Disjunction | Conjunction | Negation | Primary

  /** `or` binds loosest, then `and`, then `not`; both binary operators associate to the left. */
  predicate Levelled(t: Tree, level: Level)
    decreases t
  {
    match t
    case OrTree(l, r) => level == Disjunction && Levelled(l, Disjunction) && Levelled(r, Conjunction)
    case AndTree(l, r) => (level == Disjunction || level == Conjunction) && Levelled(l, Conjunction)
      && Levelled(r, Negation)
    case NotTree(c) => level != Primary && Levelled(c, Negation)
    case Group(c) => Levelled(c, Disjunction)
    case LeafTree(p) => p.InList? ==> 1 <= |p.values| <= MAX_LIST
  }

  function LiteralToken(v: Literal): Token {
    match v
    case StringLiteral(text) => StringToken(text)
    case NumberLiteral(text) => NumberToken(text)
  }

  function OpToken(op: Op): Token {
    match op
    case Comparison(text) => OperatorToken(text)
    case Contains => ContainsToken
    case StartsWith => StartsWithToken
    case EndsWith => EndsWithToken
  }

  function PrintList(values: seq<Literal>): seq<Token> {
    if values == [] then []
    else if |values| == 1 then [LiteralToken(values[0]), RBracket]
    else [LiteralToken(values[0]), Comma] + PrintList(values[1..])
  }

  function PrintPredicate(p: Predicate): seq<Token> {
    match p
    case Exists(field) => [IdentifierToken(field), ExistsToken]
    case InList(field, values) => [IdentifierToken(field), InToken, LBracket] + PrintList(values)
    case Compare(field, op, value) => [IdentifierToken(field), OpToken(op), LiteralToken(value)]
  }

  function Print(t: Tree): seq<Token> {
    match t
    case OrTree(l, r) => Print(l) + [OrToken] + Print(r)
    case AndTree(l, r) => Print(l) + [AndToken] + Print(r)
    case NotTree(c) => [NotToken] + Print(c)
    case Group(c) => [LParen] + Print(c) + [RParen]
    case LeafTree(p) => PrintPredicate(p)
  }

  /** `s` is written in `tokens` from `i` up to `j`. */
  predicate Written(tokens: seq<Token>, i: nat, j: nat, s: seq<Token>) {
    i <= j <= |tokens| && tokens[i..j] == s
  }

  // ----- printed sentences parse -----

  lemma Split(tokens: seq<Token>, i: nat, j: nat, a: seq<Token>, b: seq<Token>)
    requires Written(tokens, i, j, a + b)
    ensures j == i + |a| + |b| && Written(tokens, i, i + |a|, a) && Written(tokens, i + |a|, j, b)
  {
    assert tokens[i..j][..|a|] == a && tokens[i..j][|a|..] == b;
  }

  lemma Item(tokens: seq<Token>, i: nat, j: nat, s: seq<Token>, k: nat)
    requires Written(tokens, i, j, s) && k < |s|
    ensures i + k < |tokens| && tokens[i + k] == s[k]
  {
    assert tokens[i..j][k] == s[k];
  }

  lemma Head(tokens: seq<Token>, i: nat, j: nat, x: Token, b: seq<Token>)
    requires Written(tokens, i, j, [x] + b)
    ensures i < |tokens| && tokens[i] == x && Written(tokens, i + 1, j, b)
  {
    Split(tokens, i, j, [x], b);
  }

  lemma Infix(tokens: seq<Token>, i: nat, j: nat, a: seq<Token>, x: Token, b: seq<Token>) returns (k: nat)
    requires Written(tokens, i, j, a + [x] + b)
    ensures i <= k < j && tokens[k] == x && Written(tokens, i, k, a) && Written(tokens, k + 1, j, b)
  {
    assert a + [x] + b == a + ([x] + b);
    Split(tokens, i, j, a, [x] + b);
    k := i + |a|;
    Head(tokens, k, j, x, b);
  }

  lemma {:induction false} ListParses(tokens: seq<Token>, i: nat, j: nat, values: seq<Literal>)
    requires Terminated(tokens) && values != [] && Written(tokens, i, j, PrintList(values)) && j < |tokens|
    ensures ListAt(tokens, i) == Some((values, j))
    decreases |values|
  {
    if |values| == 1 {
      Item(tokens, i, j, PrintList(values), 0);
      Item(tokens, i, j, PrintList(values), 1);
      assert values == [values[0]];
    } else {
      Split(tokens, i, j, [LiteralToken(values[0]), Comma], PrintList(values[1..]));
      Item(tokens, i, j, PrintList(values), 0);
      Item(tokens, i, j, PrintList(values), 1);
      ListParses(tokens, i + 2, j, values[1..]);
      assert values == [values[0]] + values[1..];
    }
  }

  lemma PredicateParses(tokens: seq<Token>, i: nat, j: nat, p: Predicate)
    requires Terminated(tokens) && Levelled(LeafTree(p), Primary) && Written(tokens, i, j, PrintPredicate(p))
      && j < |tokens|
    ensures PredicateAt(tokens, i) == Some((p, j))
  {
    if p.InList? {
      InListParses(tokens, i, j, p);
    } else {
      SimpleParses(tokens, i, j, p);
    }
  }

  lemma InListParses(tokens: seq<Token>, i: nat, j: nat, p: Predicate)
    requires Terminated(tokens) && p.InList? && 1 <= |p.values| <= MAX_LIST
      && Written(tokens, i, j, PrintPredicate(p)) && j < |tokens|
    ensures PredicateAt(tokens, i) == Some((p, j))
  {
    Split(tokens, i, j, [IdentifierToken(p.field), InToken, LBracket], PrintList(p.values));
    assert tokens[i..i + 3] == [tokens[i], tokens[i + 1], tokens[i + 2]];
    ListParses(tokens, i + 3, j, p.values);
  }

  lemma SimpleParses(tokens: seq<Token>, i: nat, j: nat, p: Predicate)
    requires Terminated(tokens) && !p.InList? && Written(tokens, i, j, PrintPredicate(p)) && j < |tokens|
    ensures PredicateAt(tokens, i) == Some((p, j))
  {
    assert forall k :: 0 <= k < j - i ==> tokens[i + k] == tokens[i..j][k];
    assert tokens[i + 0] == tokens[i];
  }

  lemma {:induction false} PrintStarts(t: Tree)
    ensures Print(t) != [] && !Print(t)[0].OrToken? && !Print(t)[0].AndToken?
    ensures Levelled(t, Primary) ==> Print(t)[0] != NotToken
    ensures t.LeafTree? ==> Print(t)[0].IdentifierToken?
  {
    match t
    case OrTree(l, r) => PrintStarts(l);
    case AndTree(l, r) => PrintStarts(l);
    case _ =>
  }

  /** A primary or a negation ends where its sentence ends, whatever follows. */
  lemma {:induction false} NotParses(tokens: seq<Token>, i: nat, j: nat, t: Tree)
    requires Terminated(tokens) && Levelled(t, Negation) && Written(tokens, i, j, Print(t)) && j < |tokens|
    ensures NotAt(tokens, i) == Some((Strip(t), j))
    decreases t, 1
  {
    if t.NotTree? {
      Head(tokens, i, j, NotToken, Print(t.child));
      NotParses(tokens, i + 1, j, t.child);
    } else {
      PrimaryParses(tokens, i, j, t);
      PrintStarts(t);
      Item(tokens, i, j, Print(t), 0);
    }
  }

  lemma {:induction false} PrimaryParses(tokens: seq<Token>, i: nat, j: nat, t: Tree)
    requires Terminated(tokens) && Levelled(t, Primary) && Written(tokens, i, j, Print(t)) && j < |tokens|
    ensures PrimaryAt(tokens, i) == Some((Strip(t), j))
    decreases t, 0
  {
    if t.Group? {
      var c := Print(t.inner);
      assert Print(t) == [LParen] + (c + [RParen]);
      Head(tokens, i, j, LParen, c + [RParen]);
      Split(tokens, i + 1, j, c, [RParen]);
      Item(tokens, j - 1, j, [RParen], 0);
      OrParses(tokens, i + 1, j - 1, t.inner);
    } else {
      PrintStarts(t);
      Item(tokens, i, j, Print(t), 0);
      PredicateParses(tokens, i, j, t.leaf);
    }
  }

  /** After a conjunction's sentence the parser is still looking for more conjuncts. */
  lemma {:induction false} AndPrefix(tokens: seq<Token>, i: nat, j: nat, t: Tree)
    requires Terminated(tokens) && Levelled(t, Conjunction) && Written(tokens, i, j, Print(t)) && j < |tokens|
    ensures AndAt(tokens, i) == AndTail(tokens, j, Strip(t))
    decreases t, 2
  {
    if t.AndTree? {
      var k := Infix(tokens, i, j, Print(t.left), AndToken, Print(t.right));
      AndPrefix(tokens, i, k, t.left);
      NotParses(tokens, k + 1, j, t.right);
    } else {
      NotParses(tokens, i, j, t);
    }
  }

  lemma {:induction false} OrPrefix(tokens: seq<Token>, i: nat, j: nat, t: Tree)
    requires Terminated(tokens) && Levelled(t, Disjunction) && Written(tokens, i, j, Print(t)) && j < |tokens|
      && tokens[j] != AndToken
    ensures OrAt(tokens, i) == OrTail(tokens, j, Strip(t))
    decreases t, 3
  {
    match t
    case OrTree(l, r) =>
      var k := Infix(tokens, i, j, Print(l), OrToken, Print(r));
      OrPrefix(tokens, i, k, l);
      AndPrefix(tokens, k + 1, j, r);
    case _ => AndPrefix(tokens, i, j, t);
  }

  lemma OrParses(tokens: seq<Token>, i: nat, j: nat, t: Tree)
    requires Terminated(tokens) && Levelled(t, Disjunction) && Written(tokens, i, j, Print(t))
    requires j < |tokens| && tokens[j] != AndToken && tokens[j] != OrToken
    ensures OrAt(tokens, i) == Some((Strip(t), j))
    decreases t, 4
  {
    OrPrefix(tokens, i, j, t);
  }

  /** Every sentence of the grammar parses, to the expression it was written for. */
  lemma SentenceParses(t: Tree)
    requires Levelled(t, Disjunction)
    ensures Parsed(Print(t) + [Eof]) == Some(Strip(t))
  {
    OrParses(Print(t) + [Eof], 0, |Print(t)|, t);
  }

  // ----- what parses is a sentence -----

  lemma Joined(tokens: seq<Token>, i: nat, k: nat, j: nat)
    requires i <= k <= j <= |tokens|
    ensures tokens[i..j] == tokens[i..k] + tokens[k..j]
  {
  }

  lemma Bracketed(tokens: seq<Token>, i: nat, j: nat)
    requires i < j < |tokens|
    ensures tokens[i..j + 1] == [tokens[i]] + tokens[i + 1..j] + [tokens[j]]
  {
  }

  lemma InfixWritten(tokens: seq<Token>, i: nat, k: nat, j: nat)
    requires i <= k < j <= |tokens|
    ensures tokens[i..j] == tokens[i..k] + [tokens[k]] + tokens[k + 1..j]
  {
  }

  lemma {:induction false} ListSentence(tokens: seq<Token>, i: nat)
    requires Terminated(tokens) && i < |tokens| && ListAt(tokens, i).Some?
    ensures var (values, j) := ListAt(tokens, i).value;
            values != [] && tokens[i..j] == PrintList(values)
    decreases |tokens| - i
  {
    if tokens[i + 1] == Comma {
      ListSentence(tokens, i + 2);
      var (values, j) := ListAt(tokens, i + 2).value;
      assert ([LiteralAt(tokens, i).value.0] + values)[1..] == values;
      Joined(tokens, i, i + 2, j);
      assert tokens[i..i + 2] == [tokens[i], tokens[i + 1]];
    } else {
      assert tokens[i..i + 2] == [tokens[i], tokens[i + 1]];
    }
  }

  lemma PredicateSentence(tokens: seq<Token>, i: nat)
    requires Terminated(tokens) && i < |tokens| && PredicateAt(tokens, i).Some?
    ensures var (p, j) := PredicateAt(tokens, i).value;
            Levelled(LeafTree(p), Primary) && tokens[i..j] == PrintPredicate(p)
  {
    var (p, j) := PredicateAt(tokens, i).value;
    if p.InList? {
      ListSentence(tokens, i + 3);
      Joined(tokens, i, i + 3, j);
      assert tokens[i..i + 3] == [tokens[i], tokens[i + 1], tokens[i + 2]];
    } else if p.Exists? {
      assert tokens[i..i + 2] == [tokens[i], tokens[i + 1]];
    } else {
      assert tokens[i..i + 3] == [tokens[i], tokens[i + 1], tokens[i + 2]];
    }
  }

  /** `t` derives what was read between `i` and `j`. */
  ghost predicate Derives(tokens: seq<Token>, i: nat, j: nat, t: Tree, e: Expression, level: Level) {
    i <= j <= |tokens| && Levelled(t, level) && tokens[i..j] == Print(t) && Strip(t) == e
  }

  lemma {:induction false} PrimarySentence(tokens: seq<Token>, i: nat) returns (t: Tree)
    requires Terminated(tokens) && i < |tokens| && PrimaryAt(tokens, i).Some?
    ensures Derives(tokens, i, PrimaryAt(tokens, i).value.1, t, PrimaryAt(tokens, i).value.0, Primary)
    decreases |tokens| - i, 0
  {
    if tokens[i] == LParen {
      var (e, j) := OrAt(tokens, i + 1).value;
      var inner := OrSentence(tokens, i + 1);
      t := Group(inner);
      Bracketed(tokens, i, j);
    } else {
      PredicateSentence(tokens, i);
      t := LeafTree(PredicateAt(tokens, i).value.0);
    }
  }

  lemma {:induction false} NotSentence(tokens: seq<Token>, i: nat) returns (t: Tree)
    requires Terminated(tokens) && i < |tokens| && NotAt(tokens, i).Some?
    ensures Derives(tokens, i, NotAt(tokens, i).value.1, t, NotAt(tokens, i).value.0, Negation)
    decreases |tokens| - i, 1
  {
    if tokens[i] == NotToken {
      var child := NotSentence(tokens, i + 1);
      t := NotTree(child);
      Joined(tokens, i, i + 1, NotAt(tokens, i).value.1);
      assert tokens[i..i + 1] == [NotToken];
    } else {
      t := PrimarySentence(tokens, i);
    }
  }

  lemma {:induction false} AndTailSentence(tokens: seq<Token>, i: nat, k: nat, l: Tree) returns (t: Tree)
    requires Terminated(tokens) && i <= k < |tokens| && Derives(tokens, i, k, l, Strip(l), Conjunction)
      && AndTail(tokens, k, Strip(l)).Some?
    ensures Derives(tokens, i, AndTail(tokens, k, Strip(l)).value.1, t, AndTail(tokens, k, Strip(l)).value.0,
      Conjunction)
    decreases |tokens| - k, 2
  {
    t := l;
    if tokens[k] == AndToken {
      var r := NotSentence(tokens, k + 1);
      var j := NotAt(tokens, k + 1).value.1;
      InfixWritten(tokens, i, k, j);
      t := AndTailSentence(tokens, i, j, AndTree(l, r));
    }
  }

  lemma AndSentence(tokens: seq<Token>, i: nat) returns (t: Tree)
    requires Terminated(tokens) && i < |tokens| && AndAt(tokens, i).Some?
    ensures Derives(tokens, i, AndAt(tokens, i).value.1, t, AndAt(tokens, i).value.0, Conjunction)
    decreases |tokens| - i, 3
  {
    var l := NotSentence(tokens, i);
    NegationIsConjunction(l);
    t := AndTailSentence(tokens, i, NotAt(tokens, i).value.1, l);
  }

  lemma NegationIsConjunction(t: Tree)
    ensures Levelled(t, Negation) ==> Levelled(t, Conjunction)
    ensures Levelled(t, Conjunction) ==> Levelled(t, Disjunction)
  {
  }

  lemma {:induction false} OrTailSentence(tokens: seq<Token>, i: nat, k: nat, l: Tree) returns (t: Tree)
    requires Terminated(tokens) && i <= k < |tokens| && Derives(tokens, i, k, l, Strip(l), Disjunction)
      && OrTail(tokens, k, Strip(l)).Some?
    ensures Derives(tokens, i, OrTail(tokens, k, Strip(l)).value.1, t, OrTail(tokens, k, Strip(l)).value.0, Disjunction)
    decreases |tokens| - k, 4
  {
    t := l;
    if tokens[k] == OrToken {
      var r := AndSentence(tokens, k + 1);
      var j := AndAt(tokens, k + 1).value.1;
      InfixWritten(tokens, i, k, j);
      t := OrTailSentence(tokens, i, j, OrTree(l, r));
    }
  }

  lemma OrSentence(tokens: seq<Token>, i: nat) returns (t: Tree)
    requires Terminated(tokens) && i < |tokens| && OrAt(tokens, i).Some?
    ensures Derives(tokens, i, OrAt(tokens, i).value.1, t, OrAt(tokens, i).value.0, Disjunction)
    decreases |tokens| - i, 5
  {
    var l := AndSentence(tokens, i);
    NegationIsConjunction(l);
    t := OrTailSentence(tokens, i, AndAt(tokens, i).value.1, l);
  }

  ghost predicate IsSentence(tokens: seq<Token>, e: Expression) {
    exists t :: Levelled(t, Disjunction) && Print(t) == tokens && Strip(t) == e
  }

  /** The parser accepts exactly the sentences of the grammar, each with the one expression it can mean. */
  lemma ParsesExactlySentences(tokens: seq<Token>, e: Expression)
    requires Eof !in tokens
    ensures Parsed(tokens + [Eof]) == Some(e) <==> IsSentence(tokens, e)
  {
    var all := tokens + [Eof];
    if Parsed(all) == Some(e) {
      var t := OrSentence(all, 0);
      assert Print(t) == tokens;
    }
    if IsSentence(tokens, e) {
      var t :| Levelled(t, Disjunction) && Print(t) == tokens && Strip(t) == e;
      SentenceParses(t);
    }
  }

  // ----- printing an expression -----

  /** Lists a query may hold. */
  predicate Printable(e: Expression) {
    match e
    case Or(l, r) => Printable(l) && Printable(r)
    case And(l, r) => Printable(l) && Printable(r)
    case Not(c) => Printable(c)
    case Leaf(p) => p.InList? ==> 1 <= |p.values| <= MAX_LIST
  }

  /** The expression with every compound operand in parentheses. */
  function Parenthesised(e: Expression): Tree
    decreases e, 0
  {
    match e
    case Or(l, r) => OrTree(Operand(l), Operand(r))
    case And(l, r) => AndTree(Operand(l), Operand(r))
    case Not(c) => NotTree(Operand(c))
    case Leaf(p) => LeafTree(p)
  }

  function Operand(e: Expression): Tree
    decreases e, 1
  {
    if e.Leaf? then LeafTree(e.predicate_) else Group(Parenthesised(e))
  }

  /** Parentheses only where precedence or associativity would otherwise change the tree. */
  function Minimal(e: Expression, level: Level): Tree
    decreases e, if level == Disjunction then 0 else 1
  {
    match e
    case Or(l, r) => if level == Disjunction then OrTree(Minimal(l, Disjunction), Minimal(r, Conjunction))
      else Group(Minimal(e, Disjunction))
    case And(l, r) =>
      if level == Disjunction || level == Conjunction then AndTree(Minimal(l, Conjunction), Minimal(r, Negation))
        else Group(Minimal(e, Disjunction))
    case Not(c) => if level != Primary then NotTree(Minimal(c, Negation)) else Group(Minimal(e, Disjunction))
    case Leaf(p) => LeafTree(p)
  }

  lemma {:induction false} ParenthesisedDerives(e: Expression)
    requires Printable(e)
    ensures Levelled(Parenthesised(e), Disjunction) && Strip(Parenthesised(e)) == e
    ensures Levelled(Operand(e), Primary) && Levelled(Operand(e), Negation) && Levelled(Operand(e), Conjunction)
      && Levelled(Operand(e), Disjunction)
    ensures Strip(Operand(e)) == e
  {
    match e
    case Or(l, r) => ParenthesisedDerives(l); ParenthesisedDerives(r);
    case And(l, r) => ParenthesisedDerives(l); ParenthesisedDerives(r);
    case Not(c) => ParenthesisedDerives(c);
    case Leaf(_) =>
  }

  lemma {:induction false} MinimalDerives(e: Expression, level: Level)
    requires Printable(e)
    ensures Levelled(Minimal(e, level), level) && Strip(Minimal(e, level)) == e
    decreases e, if level == Disjunction then 0 else 1
  {
    match e
    case Or(l, r) =>
      if level == Disjunction { MinimalDerives(l, Disjunction); MinimalDerives(r, Conjunction); }
        else { MinimalDerives(e, Disjunction); }
    case And(l, r) =>
      if level == Disjunction || level == Conjunction { MinimalDerives(l, Conjunction); MinimalDerives(r, Negation); }
      else { MinimalDerives(e, Disjunction); }
    case Not(c) => if level != Primary { MinimalDerives(c, Negation); } else { MinimalDerives(e, Disjunction); }
    case Leaf(_) =>
  }

  /**
   * Round trip: printed with all its parentheses, or with only the needed ones, an expression
   * parses back to itself.
   */
  lemma RoundTrip(e: Expression)
    requires Printable(e)
    ensures Parsed(Print(Parenthesised(e)) + [Eof]) == Some(e)
    ensures Parsed(Print(Minimal(e, Disjunction)) + [Eof]) == Some(e)
  {
    ParenthesisedDerives(e);
    MinimalDerives(e, Disjunction);
    SentenceParses(Parenthesised(e));
    SentenceParses(Minimal(e, Disjunction));
  }
}
