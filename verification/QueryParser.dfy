/** The search language's recursive-descent parser over lexed tokens. */
module QueryParser {
  import opened Wrappers

  datatype Token =
    | LParen | RParen | LBracket | RBracket | Comma
    | StringToken(text: string) | NumberToken(text: string) | IdentifierToken(text: string)
    | OperatorToken(text: string)
    | AndToken | OrToken | NotToken | ContainsToken | StartsWithToken | EndsWithToken | ExistsToken | InToken
    | Eof

  datatype Literal = StringLiteral(text: string) | NumberLiteral(text: string)

  datatype Op = Comparison(text: string) | Contains | StartsWith | EndsWith

  datatype Predicate = Exists(field: string) | InList(field: string, values: seq<Literal>)
    | Compare(field: string, op: Op, value: Literal)

  datatype Expression = Or(left: Expression, right: Expression) | And(left: Expression, right: Expression)
    | Not(child: Expression) | Leaf(predicate_: Predicate)

  const MAX_LIST := 32

  // ----- what the parser computes -----

  /** Lexing always ends with the end marker. */
  predicate Terminated(tokens: seq<Token>) {
    |tokens| > 0 && tokens[|tokens| - 1] == Eof
  }

  type At<+T> = Option<(T, nat)>

  predicate Forward<T>(tokens: seq<Token>, i: nat, r: At<T>) {
    r.Some? ==> i < r.value.1 < |tokens|
  }

  function LiteralAt(tokens: seq<Token>, i: nat): (r: At<Literal>)
    requires Terminated(tokens) && i < |tokens|
    ensures Forward(tokens, i, r)
  {
    match tokens[i]
    case StringToken(text) => Some((StringLiteral(text), i + 1))
    case NumberToken(text) => Some((NumberLiteral(text), i + 1))
    case _ => None
  }

  function ListAt(tokens: seq<Token>, i: nat): (r: At<seq<Literal>>)
    requires Terminated(tokens) && i < |tokens|
    ensures Forward(tokens, i, r)
    decreases |tokens| - i
  {
    match LiteralAt(tokens, i)
    case None => None
    case Some((value, j)) =>
      if tokens[j] == RBracket then Some(([value], j + 1))
      else if tokens[j] != Comma then None
      else match ListAt(tokens, j + 1)
        case None => None
        case Some((values, k)) => Some(([value] + values, k))
  }

  function OpOf(token: Token): Option<Op> {
    match token
    case OperatorToken(text) => Some(Comparison(text))
    case ContainsToken => Some(Contains)
    case StartsWithToken => Some(StartsWith)
    case EndsWithToken => Some(EndsWith)
    case _ => None
  }

  function PredicateAt(tokens: seq<Token>, i: nat): (r: At<Predicate>)
    requires Terminated(tokens) && i < |tokens|
    ensures Forward(tokens, i, r)
  {
    if !tokens[i].IdentifierToken? then None
    else if tokens[i + 1] == ExistsToken then Some((Exists(tokens[i].text), i + 2))
    else if tokens[i + 1] == InToken then
      if tokens[i + 2] != LBracket then None
      else match ListAt(tokens, i + 3)
        case None => None
        case Some((values, j)) => if |values| > MAX_LIST then None else Some((InList(tokens[i].text, values), j))
    else match OpOf(tokens[i + 1])
      case None => None
      case Some(op) =>
        match LiteralAt(tokens, i + 2)
        case None => None
        case Some((value, j)) => Some((Compare(tokens[i].text, op, value), j))
  }

  function PrimaryAt(tokens: seq<Token>, i: nat): (r: At<Expression>)
    requires Terminated(tokens) && i < |tokens|
    ensures Forward(tokens, i, r)
    decreases |tokens| - i, 0
  {
    if tokens[i] == LParen then
      match OrAt(tokens, i + 1)
      case None => None
      case Some((e, j)) => if tokens[j] == RParen then Some((e, j + 1)) else None
    else match PredicateAt(tokens, i)
      case None => None
      case Some((p, j)) => Some((Leaf(p), j))
  }

  function NotAt(tokens: seq<Token>, i: nat): (r: At<Expression>)
    requires Terminated(tokens) && i < |tokens|
    ensures Forward(tokens, i, r)
    decreases |tokens| - i, 1
  {
    if tokens[i] == NotToken then
      match NotAt(tokens, i + 1)
      case None => None
      case Some((e, j)) => Some((Not(e), j))
    else PrimaryAt(tokens, i)
  }

  function AndTail(tokens: seq<Token>, i: nat, left: Expression): (r: At<Expression>)
    requires Terminated(tokens) && i < |tokens|
    ensures r.Some? ==> i <= r.value.1 < |tokens|
    decreases |tokens| - i, 2
  {
    if tokens[i] != AndToken then Some((left, i))
    else match NotAt(tokens, i + 1)
      case None => None
      case Some((right, j)) => AndTail(tokens, j, And(left, right))
  }

  function AndAt(tokens: seq<Token>, i: nat): (r: At<Expression>)
    requires Terminated(tokens) && i < |tokens|
    ensures Forward(tokens, i, r)
    decreases |tokens| - i, 3
  {
    match NotAt(tokens, i)
    case None => None
    case Some((left, j)) => AndTail(tokens, j, left)
  }

  function OrTail(tokens: seq<Token>, i: nat, left: Expression): (r: At<Expression>)
    requires Terminated(tokens) && i < |tokens|
    ensures r.Some? ==> i <= r.value.1 < |tokens|
    decreases |tokens| - i, 4
  {
    if tokens[i] != OrToken then Some((left, i))
    else match AndAt(tokens, i + 1)
      case None => None
      case Some((right, j)) => OrTail(tokens, j, Or(left, right))
  }

  function OrAt(tokens: seq<Token>, i: nat): (r: At<Expression>)
    requires Terminated(tokens) && i < |tokens|
    ensures Forward(tokens, i, r)
    decreases |tokens| - i, 5
  {
    match AndAt(tokens, i)
    case None => None
    case Some((left, j)) => OrTail(tokens, j, left)
  }

  function Parsed(tokens: seq<Token>): Option<Expression>
    requires Terminated(tokens)
  {
    match OrAt(tokens, 0)
    case None => None
    case Some((e, j)) => if tokens[j] == Eof then Some(e) else None
  }

  // ----- the parser -----

  class Parser {
    const tokens: seq<Token>
    var index: nat

    ghost predicate Valid()
      reads this
    {
      Terminated(tokens) && index < |tokens|
    }

    constructor (tokens: seq<Token>)
      requires Terminated(tokens)
      ensures this.tokens == tokens && index == 0 && Valid()
    {
      this.tokens := tokens;
      index := 0;
    }

    /** The result and the new position are what `spec` says; on failure the position no longer matters. */
    ghost predicate Reached<T(!new)>(spec: At<T>, r: Option<T>)
      reads this
    {
      Valid() && match spec
                 case None => r.None?
                 case Some((value, j)) => r == Some(value) && index == j
    }

    function Peek(): (t: Token)
      reads this
      requires Valid()
      ensures t == Eof || index + 1 < |tokens|
    {
      tokens[index]
    }

    method Match(token: Token) returns (ok: bool)
      requires Valid() && token != Eof
      modifies this`index
      ensures Valid() && ok == (tokens[old(index)] == token) && index == old(index) + (if ok then 1 else 0)
    {
      if Peek() != token {
        return false;
      }
      index := index + 1;
      return true;
    }

    method ParseLiteral() returns (r: Option<Literal>)
      requires Valid()
      modifies this`index
      ensures Reached(LiteralAt(tokens, old(index)), r)
    {
      match Peek() {
        case StringToken(text) =>
          index := index + 1;
          return Some(StringLiteral(text));
        case NumberToken(text) =>
          index := index + 1;
          return Some(NumberLiteral(text));
        case _ =>
          return None;
      }
    }

    /** The bracketed list, after its opening bracket. */
    method ParseList() returns (r: Option<seq<Literal>>)
      requires Valid()
      modifies this`index
      ensures Reached(ListAt(tokens, old(index)), r)
    {
      var values: seq<Literal> := [];
      ghost var start := index;
      assert forall rest: seq<Literal> :: [] + rest == rest;
      while true
        invariant Valid()
        invariant ListAt(tokens, start) == Prepended(values, ListAt(tokens, index))
        decreases |tokens| - index
      {
        ghost var at := index;
        var value := ParseLiteral();
        if value.None? {
          return None;
        }
        var closed := Match(RBracket);
        if closed {
          return Some(values + [value.value]);
        }
        var more := Match(Comma);
        if !more {
          return None;
        }
        PrependedTwice(values, value.value, ListAt(tokens, index));
        values := values + [value.value];
      }
    }

    method ParsePredicate() returns (r: Option<Predicate>)
      requires Valid()
      modifies this`index
      ensures Reached(PredicateAt(tokens, old(index)), r)
    {
      var field := Peek();
      if !field.IdentifierToken? {
        return None;
      }
      index := index + 1;
      var exists_ := Match(ExistsToken);
      if exists_ {
        return Some(Exists(field.text));
      }
      var op := Peek();
      if op == InToken {
        index := index + 1;
        var entered := Match(LBracket);
        if !entered {
          return None;
        }
        var values := ParseList();
        if values.None? || |values.value| > MAX_LIST {
          return None;
        }
        return Some(InList(field.text, values.value));
      }
      var comparison := OpOf(op);
      if comparison.None? {
        return None;
      }
      index := index + 1;
      var value := ParseLiteral();
      if value.None? {
        return None;
      }
      return Some(Compare(field.text, comparison.value, value.value));
    }

    method ParsePrimary() returns (r: Option<Expression>)
      requires Valid()
      modifies this`index
      ensures Reached(PrimaryAt(tokens, old(index)), r)
      decreases |tokens| - index, 0
    {
      var entered := Match(LParen);
      if entered {
        r := ParseOr();
        if r.Some? {
          var closed := Match(RParen);
          if !closed {
            return None;
          }
        }
        return;
      }
      var leaf := ParsePredicate();
      return if leaf.Some? then Some(Leaf(leaf.value)) else None;
    }

    method ParseNot() returns (r: Option<Expression>)
      requires Valid()
      modifies this`index
      ensures Reached(NotAt(tokens, old(index)), r)
      decreases |tokens| - index, 1
    {
      var negated := Match(NotToken);
      if negated {
        var child := ParseNot();
        return if child.Some? then Some(Not(child.value)) else None;
      }
      r := ParsePrimary();
    }

    method ParseAnd() returns (r: Option<Expression>)
      requires Valid()
      modifies this`index
      ensures Reached(AndAt(tokens, old(index)), r)
      decreases |tokens| - index, 2
    {
      ghost var start := index;
      r := ParseNot();
      if r.None? {
        return;
      }
      var more := Match(AndToken);
      while more
        invariant Valid() && r.Some? && (more ==> index > start)
        invariant more ==> tokens[index - 1] == AndToken && AndAt(tokens, start) == AndTail(tokens, index - 1, r.value)
        invariant !more ==> AndAt(tokens, start) == Some((r.value, index))
        decreases more, |tokens| - index
      {
        var right := ParseNot();
        if right.None? {
          return None;
        }
        r := Some(And(r.value, right.value));
        more := Match(AndToken);
      }
    }

    method ParseOr() returns (r: Option<Expression>)
      requires Valid()
      modifies this`index
      ensures Reached(OrAt(tokens, old(index)), r)
      decreases |tokens| - index, 3
    {
      ghost var start := index;
      r := ParseAnd();
      if r.None? {
        return;
      }
      var more := Match(OrToken);
      while more
        invariant Valid() && r.Some? && (more ==> index > start)
        invariant more ==> tokens[index - 1] == OrToken && OrAt(tokens, start) == OrTail(tokens, index - 1, r.value)
        invariant !more ==> OrAt(tokens, start) == Some((r.value, index))
        decreases more, |tokens| - index
      {
        var right := ParseAnd();
        if right.None? {
          return None;
        }
        r := Some(Or(r.value, right.value));
        more := Match(OrToken);
      }
    }
  }

  function Prepended(values: seq<Literal>, r: At<seq<Literal>>): At<seq<Literal>> {
    match r
    case None => None
    case Some((rest, j)) => Some((values + rest, j))
  }

  lemma PrependedTwice(values: seq<Literal>, value: Literal, r: At<seq<Literal>>)
    ensures Prepended(values, Prepended([value], r)) == Prepended(values + [value], r)
  {
    if r.Some? {
      assert values + ([value] + r.value.0) == values + [value] + r.value.0;
    }
  }

  /** Parsing a whole query: what the functions say, with every token consumed. */
  method ParseQuery(tokens: seq<Token>) returns (r: Option<Expression>)
    requires Terminated(tokens)
    ensures r == Parsed(tokens)
  {
    var parser := new Parser(tokens);
    r := parser.ParseOr();
    if r.Some? && parser.Peek() != Eof {
      return None;
    }
  }
}
