/** What a compiled search selects: the condition over a stored row against the query's own operators. */
module SearchRows {
  import opened Wrappers
  import opened QueryParser
  import opened QueryCompiler
  import opened QueryMeaning

  datatype Cell = Null | Text(text: string) | Number(value: real)

  /** A stored row, as the value of each column expression; `number` reads a numeric literal. */
  datatype Row = Row(cell: string -> Cell, number: string -> real)

  // ----- the SQL side: the functions the condition calls -----

  predicate StandsAt(text: string, needle: string, i: nat) {
    i + |needle| <= |text| && text[i..i + |needle|] == needle
  }

  /** The one-based position of the first occurrence; zero when there is none. */
  function PositionOf(text: string, needle: string, i: nat): nat
    requires i <= |text|
    decreases |text| - i
  {
    if StandsAt(text, needle, i) then i + 1
    else if i == |text| then 0
    else PositionOf(text, needle, i + 1)
  }

  function Tell(b: bool): Tri {
    if b then True else False
  }

  function Bind(row: Row, bound: (string, string)): Cell {
    if bound.0 == "Float64" then Number(row.number(bound.1)) else Text(bound.1)
  }

  function SqlCompare(operator: string, a: Cell, b: Cell): Tri {
    match (a, b)
    case (Text(x), Text(y)) =>
      if operator == "=" then Tell(x == y) else if operator == "!=" then Tell(x != y) else Unknown
    case (Number(x), Number(y)) =>
      if operator == "=" then Tell(x == y)
      else if operator == "!=" then Tell(x != y)
      else if operator == ">" then Tell(x > y)
      else if operator == ">=" then Tell(x >= y)
      else if operator == "<" then Tell(x < y)
      else if operator == "<=" then Tell(x <= y)
      else Unknown
    case _ => Unknown
  }

  function SqlIn(a: Cell, list: seq<Cell>): Tri {
    if a == Null then Unknown else Tell(a in list)
  }

  function SqlText(form: Form, text: string, argument: string): Tri {
    match form
    case Position => Tell(PositionOf(text, argument, 0) > 0)
    case StartsWithForm => Tell(|argument| <= |text| && text[..|argument|] == argument)
    case EndsWithForm => Tell(|argument| <= |text| && text[|text| - |argument|..] == argument)
    case _ => Unknown
  }

  /** The meaning of each emitted condition over a row. */
  function SqlLeaf(row: Row, column: string, form: Form, bound: seq<(string, string)>): Tri {
    var a := row.cell(column);
    match form
    case NotNull => Tell(a != Null)
    case NotEmptyText => SqlCompare("!=", a, Text(""))
    case Member => SqlIn(a, seq(|bound|, i requires 0 <= i < |bound| => Bind(row, bound[i])))
    case Comparing(operator) => if |bound| == 1 then SqlCompare(operator, a, Bind(row, bound[0])) else Unknown
    case _ =>
      if |bound| == 1 && a.Text? && Bind(row, bound[0]).Text? then SqlText(form, a.text, bound[0].1) else Unknown
  }

  function SqlMeaning(row: Row): LeafMeaning {
    (column: string, form: Form, bound: seq<(string, string)>) => SqlLeaf(row, column, form, bound)
  }

  // ----- the query side: what its operators say of a field -----

  function LiteralOf(row: Row, v: Literal): Cell {
    match v
    case StringLiteral(text) => Text(text)
    case NumberLiteral(text) => Number(row.number(text))
  }

  predicate Orders(op: string, x: real, y: real) {
    (op == "==" && x == y) || (op == "!=" && x != y) || (op == ">" && x > y) || (op == ">=" && x >= y)
    || (op == "<" && x < y) || (op == "<=" && x <= y)
  }

  ghost predicate OccursIn(needle: string, text: string) {
    exists before, after :: text == before + needle + after
  }

  ghost predicate EndsIn(needle: string, text: string) {
    exists before :: text == before + needle
  }

  /** The operator holds between a field that has a value and the literal. */
  ghost predicate Holds(row: Row, op: Op, a: Cell, v: Literal) {
    match op
    case Comparison(text) =>
      if a.Number? && v.NumberLiteral? then Orders(text, a.value, row.number(v.text))
      else if text == "==" then a == LiteralOf(row, v)
      else text == "!=" && a != LiteralOf(row, v)
    case Contains => a.Text? && OccursIn(v.text, a.text)
    case StartsWith => a.Text? && v.text <= a.text
    case EndsWith => a.Text? && EndsIn(v.text, a.text)
  }

  /** A leaf asks about a field that may have no value: then only `exists` has an answer. */
  ghost function LeafMeans(row: Row, s: Schema, p: Predicate): Tri
    requires p.field in s.fields
  {
    var a := row.cell(s.fields[p.field].expression);
    match p
    case Exists(_) => Tell(a != Null && (s.fields[p.field].nullable || a != Text("")))
    case InList(_, values) =>
      if a == Null then Unknown else Tell(exists i :: 0 <= i < |values| && a == LiteralOf(row, values[i]))
    case Compare(_, op, value) => if a == Null then Unknown else Tell(Holds(row, op, a, value))
  }

  ghost function Means(row: Row, s: Schema, e: Expression): Tri
    requires Compiles(s, e)
  {
    match e
    case Or(l, r) => Disj(Means(row, s, l), Means(row, s, r))
    case And(l, r) => Conj(Means(row, s, l), Means(row, s, r))
    case Not(c) => Neg(Means(row, s, c))
    case Leaf(p) => LeafMeans(row, s, p)
  }

  /** A row of the schema: each column holds its kind, and NULL only where it may. */
  ghost predicate TypedRow(s: Schema, row: Row) {
    forall field :: field in s.fields ==> TypedCell(s.fields[field], row.cell(s.fields[field].expression))
  }

  predicate TypedCell(spec: FieldSpec, a: Cell) {
    match a
    case Null => spec.nullable
    case Text(_) => spec.kind == StringKind
    case Number(_) => spec.kind == NumberKind
  }

  // ----- the two agree -----

  lemma {:induction false} PositionFinds(text: string, needle: string, i: nat)
    requires i <= |text|
    ensures PositionOf(text, needle, i) > 0 <==> exists j :: i <= j <= |text| && StandsAt(text, needle, j)
    decreases |text| - i
  {
    hide StandsAt;
    if i < |text| {
      PositionFinds(text, needle, i + 1);
    }
  }

  lemma OccursIff(text: string, needle: string)
    ensures OccursIn(needle, text) <==> PositionOf(text, needle, 0) > 0
  {
    PositionFinds(text, needle, 0);
    hide PositionOf;
    if before, after :| text == before + needle + after {
      assert text[|before|..|before| + |needle|] == needle;
      assert StandsAt(text, needle, |before|);
    }
    if j :| 0 <= j <= |text| && StandsAt(text, needle, j) {
      assert text == text[..j] + needle + text[j + |needle|..];
    }
  }

  lemma EndsIff(text: string, needle: string)
    ensures EndsIn(needle, text) <==> |needle| <= |text| && text[|text| - |needle|..] == needle
  {
    if before :| text == before + needle {
      assert text[|before|..] == needle;
    }
    if |needle| <= |text| && text[|text| - |needle|..] == needle {
      assert text == text[..|text| - |needle|] + needle;
    }
  }

  lemma BindsLiteral(row: Row, v: Literal)
    ensures Bind(row, (SqlType(v), v.text)) == LiteralOf(row, v)
  {
  }

  lemma TextLeafAgrees(row: Row, s: Schema, p: Predicate)
    requires LeafCompiles(s, p) && p.Compare? && !p.op.Comparison?
    requires TypedCell(s.fields[p.field], row.cell(s.fields[p.field].expression))
    ensures SqlLeaf(row, s.fields[p.field].expression, FormOf(s, p), TypedTexts(LeafLiterals(p))) ==
            LeafMeans(row, s, p)
  {
    var a := row.cell(s.fields[p.field].expression);
    var bound := TypedTexts(LeafLiterals(p));
    assert bound == [(SqlType(p.value), p.value.text)];
    BindsLiteral(row, p.value);
    hide PositionOf, OccursIn, EndsIn;
    if a.Text? {
      OccursIff(a.text, p.value.text);
      EndsIff(a.text, p.value.text);
    }
  }

  lemma ComparisonAgrees(row: Row, s: Schema, p: Predicate)
    requires LeafCompiles(s, p) && p.Compare? && p.op.Comparison?
    requires TypedCell(s.fields[p.field], row.cell(s.fields[p.field].expression))
    ensures SqlLeaf(row, s.fields[p.field].expression, FormOf(s, p), TypedTexts(LeafLiterals(p))) ==
            LeafMeans(row, s, p)
  {
    var bound := TypedTexts(LeafLiterals(p));
    assert bound == [(SqlType(p.value), p.value.text)];
    BindsLiteral(row, p.value);
  }

  lemma ListAgrees(row: Row, s: Schema, p: Predicate)
    requires LeafCompiles(s, p) && p.InList?
    ensures SqlLeaf(row, s.fields[p.field].expression, FormOf(s, p), TypedTexts(LeafLiterals(p))) ==
            LeafMeans(row, s, p)
  {
    var a := row.cell(s.fields[p.field].expression);
    var bound := TypedTexts(p.values);
    var cells := seq(|bound|, i requires 0 <= i < |bound| => Bind(row, bound[i]));
    forall i | 0 <= i < |p.values|
      ensures cells[i] == LiteralOf(row, p.values[i])
    {
      BindsLiteral(row, p.values[i]);
    }
    if i :| 0 <= i < |p.values| && a == LiteralOf(row, p.values[i]) {
      assert cells[i] == a;
    }
  }

  /** Each emitted leaf says of a row what its operator says of the field. */
  lemma LeafAgrees(row: Row, s: Schema, p: Predicate)
    requires LeafCompiles(s, p) && TypedCell(s.fields[p.field], row.cell(s.fields[p.field].expression))
    ensures SqlLeaf(row, s.fields[p.field].expression, FormOf(s, p), TypedTexts(LeafLiterals(p))) ==
            LeafMeans(row, s, p)
  {
    match p
    case Exists(_) =>
    case InList(_, _) => ListAgrees(row, s, p);
    case Compare(_, op, _) =>
      if op.Comparison? {
        ComparisonAgrees(row, s, p);
      } else {
        TextLeafAgrees(row, s, p);
      }
  }

  lemma {:induction false} TruthIsMeaning(row: Row, s: Schema, e: Expression)
    requires Compiles(s, e) && TypedRow(s, row)
    ensures Truth(SqlMeaning(row), s, e) == Means(row, s, e)
    decreases e
  {
    match e
    case Or(l, r) =>
      TruthIsMeaning(row, s, l);
      TruthIsMeaning(row, s, r);
    case And(l, r) =>
      TruthIsMeaning(row, s, l);
      TruthIsMeaning(row, s, r);
    case Not(c) => TruthIsMeaning(row, s, c);
    case Leaf(p) => LeafAgrees(row, s, p);
  }

  /**
   * Over every row of the schema the compiled condition, with its own parameters, has exactly the
   * truth value of the query: contained, leading and trailing text, membership, order and existence,
   * unknown where a field has no value.
   */
  lemma ConditionMeansQuery(row: Row, s: Schema, e: Expression)
    requires Compiles(s, e) && TypedRow(s, row)
    ensures SqlTruth(SqlMeaning(row), Bound(Literals(e)), Emitted(s, e, 0)) == Some(Means(row, s, e))
  {
    hide Means, Truth, SqlTruth, Emitted, Bound, Compiles;
    CompilationKeepsMeaning(SqlMeaning(row), s, e);
    TruthIsMeaning(row, s, e);
  }

  // ----- rows in which every field asked about has a value -----

  ghost predicate Valued(row: Row, s: Schema, e: Expression)
    requires Compiles(s, e)
  {
    match e
    case Or(l, r) => Valued(row, s, l) && Valued(row, s, r)
    case And(l, r) => Valued(row, s, l) && Valued(row, s, r)
    case Not(c) => Valued(row, s, c)
    case Leaf(p) => p.Exists? || row.cell(s.fields[p.field].expression) != Null
  }

  ghost predicate Satisfies(row: Row, s: Schema, e: Expression)
    requires Compiles(s, e)
  {
    match e
    case Or(l, r) => Satisfies(row, s, l) || Satisfies(row, s, r)
    case And(l, r) => Satisfies(row, s, l) && Satisfies(row, s, r)
    case Not(c) => !Satisfies(row, s, c)
    case Leaf(p) => LeafMeans(row, s, p) == True
  }

  /** There the condition is true or false, as plain and, or, not say. */
  lemma {:induction false} ValuedIsTwoValued(row: Row, s: Schema, e: Expression)
    requires Compiles(s, e) && Valued(row, s, e)
    ensures Means(row, s, e) == Tell(Satisfies(row, s, e))
    decreases e
  {
    match e
    case Or(l, r) =>
      ValuedIsTwoValued(row, s, l);
      ValuedIsTwoValued(row, s, r);
    case And(l, r) =>
      ValuedIsTwoValued(row, s, l);
      ValuedIsTwoValued(row, s, r);
    case Not(c) => ValuedIsTwoValued(row, s, c);
    case Leaf(_) =>
  }
}
