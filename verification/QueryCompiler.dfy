/** Compilation of a search expression to a parameterised boolean SQL condition. */
module QueryCompiler {
  import opened Wrappers
  import opened QueryParser
  import Decimal

  datatype Kind = StringKind | NumberKind

  datatype FieldSpec = FieldSpec(expression: string, kind: Kind, nullable: bool, uuid: bool)

  /** The field table and the two textual checks of the libraries the compiler calls. */
  datatype Schema = Schema(fields: map<string, FieldSpec>, isUuidV7: string -> bool, isNumber: string -> bool)

  const SearchFields: map<string, FieldSpec> := map[
    "user.name" := FieldSpec("JSONExtractString(ocsf_event_json, 'user', 'name')", StringKind, false, false),
    "src_endpoint.ip" := FieldSpec("JSONExtractString(ocsf_event_json, 'src_endpoint', 'ip')", StringKind, false,
      false),
    "service.name" := FieldSpec("JSONExtractString(ocsf_event_json, 'service', 'name')", StringKind, false, false),
    "status" := FieldSpec("JSONExtractString(ocsf_event_json, 'status')", StringKind, false, false),
    "message" := FieldSpec("JSONExtractString(ocsf_event_json, 'message')", StringKind, false, false),
    "class_uid" := FieldSpec("class_uid", NumberKind, false, false),
    "category_uid" := FieldSpec("category_uid", NumberKind, false, false),
    "activity_id" := FieldSpec("activity_id", NumberKind, true, false),
    "severity_id" := FieldSpec("severity", NumberKind, true, false),
    "normalized_event_id" := FieldSpec("toString(normalized_event_id)", StringKind, false, true),
    "raw_event_id" := FieldSpec("toString(raw_event_id)", StringKind, false, true),
    "parser_id" := FieldSpec("parser_id", StringKind, false, false),
    "parser_version" := FieldSpec("parser_version", StringKind, false, false),
    "mapping_id" := FieldSpec("mapping_id", StringKind, false, false),
    "mapping_version" := FieldSpec("mapping_version", StringKind, false, false),
    "execution_mode" := FieldSpec("execution_mode", NumberKind, false, false)]

  // ----- emitted SQL -----

  datatype Form = NotNull | NotEmptyText | Position | StartsWithForm | EndsWithForm | Member
    | Comparing(operator: string)

  datatype Placeholder = Placeholder(name: string, sqlType: string)

  datatype Sql = Open | Close | AndWord | OrWord | NotWord
    | Atom(column: string, form: Form, placeholders: seq<Placeholder>)

  function Name(i: nat): string {
    "q" + Decimal.Text(i)
  }

  lemma NameInjective(i: nat, j: nat)
    requires Name(i) == Name(j)
    ensures i == j
  {
    assert Name(i)[1..] == Decimal.Text(i) && Name(j)[1..] == Decimal.Text(j);
    Decimal.TextInjective(i, j);
  }

  function ParameterName(name: string): string {
    "param_" + name
  }

  lemma ParameterNameInjective(i: nat, j: nat)
    requires ParameterName(Name(i)) == ParameterName(Name(j))
    ensures i == j
  {
    var p := |"param_"|;
    assert ParameterName(Name(i))[p..] == Name(i) && ParameterName(Name(j))[p..] == Name(j);
    NameInjective(i, j);
  }

  // ----- what compiles -----

  function KindOf(v: Literal): Kind {
    if v.StringLiteral? then StringKind else NumberKind
  }

  predicate Typed(s: Schema, spec: FieldSpec, v: Literal) {
    spec.kind == KindOf(v) && (spec.uuid ==> s.isUuidV7(v.text)) && (spec.kind == NumberKind ==> s.isNumber(v.text))
  }

  predicate IsComparison(op: string) {
    op == "==" || op == "!=" || op == ">" || op == ">=" || op == "<" || op == "<="
  }

  predicate AllTyped(s: Schema, spec: FieldSpec, values: seq<Literal>) {
    forall i :: 0 <= i < |values| ==> Typed(s, spec, values[i])
  }

  predicate LeafCompiles(s: Schema, p: Predicate) {
    && p.field in s.fields
    && var spec := s.fields[p.field];
       match p
       case Exists(_) => spec.nullable || spec.kind == StringKind
       case InList(_, values) => values != [] && AllTyped(s, spec, values)
       case Compare(_, op, value) =>
         match op
         case Comparison(text) => IsComparison(text) && (spec.kind == StringKind ==> text == "==" || text == "!=")
           && Typed(s, spec, value)
         case _ => spec.kind == StringKind && value.StringLiteral?
  }

  predicate Compiles(s: Schema, e: Expression) {
    match e
    case Or(l, r) => Compiles(s, l) && Compiles(s, r)
    case And(l, r) => Compiles(s, l) && Compiles(s, r)
    case Not(c) => Compiles(s, c)
    case Leaf(p) => LeafCompiles(s, p)
  }

  /** Literals of the tree, left to right. */
  function LeafLiterals(p: Predicate): seq<Literal> {
    match p
    case Exists(_) => []
    case InList(_, values) => values
    case Compare(_, _, value) => [value]
  }

  function Literals(e: Expression): seq<Literal> {
    match e
    case Or(l, r) => Literals(l) + Literals(r)
    case And(l, r) => Literals(l) + Literals(r)
    case Not(c) => Literals(c)
    case Leaf(p) => LeafLiterals(p)
  }

  function SqlType(v: Literal): string {
    if v.NumberLiteral? then "Float64" else "String"
  }

  /** The literals' own placeholders, numbered from `n`. */
  function Numbered(values: seq<Literal>, n: nat): (r: seq<Placeholder>)
    ensures |r| == |values|
  {
    seq(|values|, i requires 0 <= i < |values| => Placeholder(Name(n + i), SqlType(values[i])))
  }

  function FormOf(s: Schema, p: Predicate): Form
    requires LeafCompiles(s, p)
  {
    match p
    case Exists(field) => if s.fields[field].nullable then NotNull else NotEmptyText
    case InList(_, _) => Member
    case Compare(_, op, _) =>
      match op
      case Contains => Position
      case StartsWith => StartsWithForm
      case EndsWith => EndsWithForm
      case Comparison(text) => Comparing(if text == "==" then "=" else text)
  }

  function Emitted(s: Schema, e: Expression, n: nat): seq<Sql>
    requires Compiles(s, e)
    decreases e
  {
    match e
    case Or(l, r) => [Open] + Emitted(s, l, n) + [OrWord] + Emitted(s, r, n + |Literals(l)|) + [Close]
    case And(l, r) => [Open] + Emitted(s, l, n) + [AndWord] + Emitted(s, r, n + |Literals(l)|) + [Close]
    case Not(c) => [Open, NotWord] + Emitted(s, c, n) + [Close]
    case Leaf(p) => [Atom(s.fields[p.field].expression, FormOf(s, p), Numbered(LeafLiterals(p), n))]
  }

  /** Parameters named q0, q1, … bound to the texts of `values` in order. */
  function Bound(values: seq<Literal>): map<string, string> {
    if values == [] then map[]
    else Bound(values[..|values| - 1])[ParameterName(Name(|values| - 1)) := values[|values| - 1].text]
  }

  lemma NumberedNone(s: Schema, spec: FieldSpec, n: nat)
    ensures Numbered([], n) == [] && AllTyped(s, spec, [])
  {
  }

  /** One more literal of a list takes the next name, and the list types exactly when its parts do. */
  lemma NumberedOneMore(s: Schema, spec: FieldSpec, list: seq<Literal>, i: nat, n: nat)
    requires i < |list|
    ensures Numbered(list[..i + 1], n) == Numbered(list[..i], n) + [Placeholder(Name(n + i), SqlType(list[i]))]
    ensures AllTyped(s, spec, list[..i + 1]) <==> AllTyped(s, spec, list[..i]) && Typed(s, spec, list[i])
    ensures AllTyped(s, spec, list) ==> Typed(s, spec, list[i])
  {
    hide Typed, SqlType, Name;
    assert list[..i + 1] == list[..i] + [list[i]];
  }

  // ----- the compiler -----

  class Compiler {
    const schema: Schema
    var parameters: map<string, string>
    var counter: nat
    /** The literals bound so far. */
    ghost var values: seq<Literal>

    ghost predicate Valid()
      reads this
    {
      counter == |values| && parameters == Bound(values)
    }

    constructor (schema: Schema)
      ensures this.schema == schema && values == [] && Valid()
    {
      this.schema := schema;
      parameters, counter, values := map[], 0, [];
    }

    method AddParameter(sqlType: string, v: Literal) returns (p: Placeholder)
      requires Valid()
      modifies this
      ensures Valid() && values == old(values) + [v] && p == Placeholder(Name(old(counter)), sqlType)
    {
      var name := Name(counter);
      counter := counter + 1;
      parameters := parameters[ParameterName(name) := v.text];
      values := values + [v];
      assert values[..|values| - 1] == old(values);
      return Placeholder(name, sqlType);
    }

    method TypedParameter(spec: FieldSpec, v: Literal) returns (p: Option<Placeholder>)
      requires Valid()
      modifies this
      ensures Valid() && (p.Some? <==> Typed(schema, spec, v))
      ensures p.Some? ==> values == old(values) + [v] && p.value == Placeholder(Name(old(counter)), SqlType(v))
      ensures p.None? ==> values == old(values)
    {
      if spec.kind != KindOf(v) || (spec.uuid && !schema.isUuidV7(v.text)) {
        return None;
      }
      if spec.kind == NumberKind {
        if !schema.isNumber(v.text) {
          return None;
        }
        var number := AddParameter("Float64", v);
        return Some(number);
      }
      var text := AddParameter("String", v);
      return Some(text);
    }

    method CompileList(spec: FieldSpec, list: seq<Literal>) returns (r: Option<seq<Placeholder>>)
      requires Valid()
      modifies this
      ensures Valid() && (r.Some? <==> AllTyped(schema, spec, list)) && old(values) <= values
      ensures r.Some? ==> values == old(values) + list && r.value == Numbered(list, old(counter))
    {
      hide Typed, Bound, Name, SqlType, Numbered, AllTyped;
      var placeholders: seq<Placeholder> := [];
      NumberedNone(schema, spec, counter);
      for i := 0 to |list|
        invariant Valid() && values == old(values) + list[..i]
        invariant AllTyped(schema, spec, list[..i])
        invariant placeholders == Numbered(list[..i], old(counter))
      {
        assert list[..i + 1] == list[..i] + [list[i]];
        NumberedOneMore(schema, spec, list, i, old(counter));
        var p := TypedParameter(spec, list[i]);
        if p.None? {
          return None;
        }
        placeholders := placeholders + [p.value];
      }
      assert list[..|list|] == list;
      return Some(placeholders);
    }

    method CompilePredicate(p: Predicate) returns (r: Option<Sql>)
      requires Valid()
      modifies this
      ensures Valid() && (r.Some? <==> LeafCompiles(schema, p)) && old(values) <= values
      ensures r.Some? ==> values == old(values) + LeafLiterals(p)
                          && r.value == Atom(schema.fields[p.field].expression, FormOf(schema, p),
                            Numbered(LeafLiterals(p), old(counter)))
    {
      if p.field !in schema.fields {
        return None;
      }
      var spec := schema.fields[p.field];
      match p
      case Exists(_) =>
        if spec.nullable {
          return Some(Atom(spec.expression, NotNull, []));
        }
        if spec.kind == StringKind {
          return Some(Atom(spec.expression, NotEmptyText, []));
        }
        return None;
      case InList(_, list) =>
        if list == [] {
          return None;
        }
        var placeholders := CompileList(spec, list);
        if placeholders.None? {
          return None;
        }
        return Some(Atom(spec.expression, Member, placeholders.value));
      case Compare(_, op, value) =>
        assert Numbered([value], counter) == [Placeholder(Name(counter), SqlType(value))];
        if op.Comparison? {
          if !IsComparison(op.text) || (spec.kind == StringKind && op.text != "==" && op.text != "!=") {
            return None;
          }
          var placeholder := TypedParameter(spec, value);
          if placeholder.None? {
            return None;
          }
          return Some(Atom(spec.expression, Comparing(if op.text == "==" then "=" else op.text), [placeholder.value]));
        }
        if spec.kind != StringKind || !value.StringLiteral? {
          return None;
        }
        var placeholder := AddParameter("String", value);
        var form := match op case Contains => Position case StartsWith => StartsWithForm case _ => EndsWithForm;
        return Some(Atom(spec.expression, form, [placeholder]));
    }

    method CompileInto(e: Expression) returns (r: Option<seq<Sql>>)
      requires Valid()
      modifies this
      ensures Valid() && (r.Some? <==> Compiles(schema, e)) && old(values) <= values
      ensures r.Some? ==> values == old(values) + Literals(e) && r.value == Emitted(schema, e, old(counter))
      decreases e
    {
      hide Bound, LeafCompiles, FormOf, Numbered;
      match e
      case Leaf(p) =>
        var atom := CompilePredicate(p);
        return if atom.Some? then Some([atom.value]) else None;
      case Not(c) =>
        var child := CompileInto(c);
        return if child.Some? then Some([Open, NotWord] + child.value + [Close]) else None;
      case Or(left, right) =>
        var l := CompileInto(left);
        if l.None? {
          return None;
        }
        var rest := CompileInto(right);
        if rest.None? {
          return None;
        }
        return Some([Open] + l.value + [OrWord] + rest.value + [Close]);
      case And(left, right) =>
        var l := CompileInto(left);
        if l.None? {
          return None;
        }
        var rest := CompileInto(right);
        if rest.None? {
          return None;
        }
        return Some([Open] + l.value + [AndWord] + rest.value + [Close]);
    }
  }

  /** An absent query compiles to nothing and binds nothing. */
  method CompileExpression(schema: Schema, e: Option<Expression>) returns (r: Option<(seq<Sql>, map<string, string>)>)
    ensures e.None? ==> r == Some(([], map[]))
    ensures e.Some? ==>
      r == if Compiles(schema, e.value) then Some((Emitted(schema, e.value, 0), Bound(Literals(e.value)))) else None
  {
    if e.None? {
      return Some(([], map[]));
    }
    var compiler := new Compiler(schema);
    var sql := compiler.CompileInto(e.value);
    if sql.None? {
      return None;
    }
    assert compiler.values == Literals(e.value);
    return Some((sql.value, compiler.parameters));
  }

  /** The search API's own field table, whose fields are the only names a query may use. */
  function SearchSchema(isUuidV7: string -> bool, isNumber: string -> bool): Schema {
    Schema(SearchFields, isUuidV7, isNumber)
  }

  /** Compilation as the search requests it; an expression over any other field is refused. */
  method CompileSearch(isUuidV7: string -> bool, isNumber: string -> bool, e: Option<Expression>)
    returns (r: Option<(seq<Sql>, map<string, string>)>)
    ensures r.Some? <==> (e.Some? ==> Compiles(SearchSchema(isUuidV7, isNumber), e.value))
    ensures r.Some? && e.Some? ==> forall f :: f in Fields(e.value) ==> f in SearchFields
    ensures r.Some? && e.Some? ==>
              r.value == (Emitted(SearchSchema(isUuidV7, isNumber), e.value, 0), Bound(Literals(e.value)))
  {
    hide SearchFields;
    r := CompileExpression(SearchSchema(isUuidV7, isNumber), e);
    if r.Some? && e.Some? {
      FieldsKnown(SearchSchema(isUuidV7, isNumber), e.value);
    }
  }

  ghost function Fields(e: Expression): set<string> {
    match e
    case Or(l, r) => Fields(l) + Fields(r)
    case And(l, r) => Fields(l) + Fields(r)
    case Not(c) => Fields(c)
    case Leaf(p) => {p.field}
  }

  lemma {:induction false} FieldsKnown(s: Schema, e: Expression)
    requires Compiles(s, e)
    ensures forall f :: f in Fields(e) ==> f in s.fields
  {
    match e
    case Or(l, r) => FieldsKnown(s, l); FieldsKnown(s, r);
    case And(l, r) => FieldsKnown(s, l); FieldsKnown(s, r);
    case Not(c) => FieldsKnown(s, c);
    case Leaf(_) =>
  }
}
