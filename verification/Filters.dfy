/** The store's filter expressions and their in-memory evaluator. */
module Filters {
  import opened Wrappers
  import opened Json
  import opened Namespaces

  datatype CmpOp = Eq | Ne | Gt | Gte | Lt | Lte

  datatype FilterExpr =
    | Leaf(op: CmpOp, field: string, value: Json)
    | And(expressions: seq<FilterExpr>)
    | Or(expressions: seq<FilterExpr>)
    | Not(expr: FilterExpr)

  /** Follows a dotted path through nested objects. */
  function GetField(value: Json, path: string): Option<Json> {
    Walk(value, Split(path, '.'))
  }

  function Walk(value: Json, parts: seq<string>): Option<Json>
    decreases |parts|
  {
    if parts == [] then Some(value)
    else if value.Object? && parts[0] in value.fields then Walk(value.fields[parts[0]], parts[1..])
    else None
  }

  function AsReal(n: Num): real {
    match n
    case Integer(i) => i as real
    case Float(r) => r
  }

  /** Orders two numbers; anything else does not compare. */
  predicate CompareNumbers(actual: Option<Json>, op: CmpOp, expected: Json) {
    actual.Some? && actual.value.Number? && expected.Number? &&
    var a, b := AsReal(actual.value.n), AsReal(expected.n);
    match op
    case Gt => a > b
    case Gte => a >= b
    case Lt => a < b
    case Lte => a <= b
    case _ => false
  }

  /** Compares what is found at a path, if anything, with the literal. */
  predicate Compares(op: CmpOp, actual: Option<Json>, expected: Json) {
    match op
    case Eq => actual.Some? && actual.value == expected
    case Ne => actual.None? || actual.value != expected
    case _ => CompareNumbers(actual, op, expected)
  }

  predicate EvaluateLeaf(op: CmpOp, field: string, expected: Json, value: Json) {
    Compares(op, GetField(value, field), expected)
  }

  predicate Evaluate(f: FilterExpr, value: Json)
    decreases f, 1
  {
    match f
    case Leaf(op, field, expected) => EvaluateLeaf(op, field, expected, value)
    case And(es) => EvaluateAll(es, value)
    case Or(es) => EvaluateAny(es, value)
    case Not(e) => !Evaluate(e, value)
  }

  predicate EvaluateAll(es: seq<FilterExpr>, value: Json)
    decreases es, 0
  {
    es == [] || (Evaluate(es[0], value) && EvaluateAll(es[1..], value))
  }

  predicate EvaluateAny(es: seq<FilterExpr>, value: Json)
    decreases es, 0
  {
    es != [] && (Evaluate(es[0], value) || EvaluateAny(es[1..], value))
  }

  /** The value is a number, and this real is it. */
  predicate IsReal(value: Option<Json>, r: real) {
    value.Some? && value.value.Number? &&
    match value.value.n
    case Integer(i) => r == i as real
    case Float(x) => r == x
  }

  /**
   * Equality is of JSON values, integers and floats apart, and a missing value equals nothing; the range
   * operators hold between two numbers in that order and between nothing else.
   */
  lemma ComparisonsMean(field: string, literal: Json, value: Json)
    ensures Evaluate(Leaf(Eq, field, literal), value) <==> GetField(value, field) == Some(literal)
    ensures Evaluate(Leaf(Ne, field, literal), value) <==> GetField(value, field) != Some(literal)
    ensures Evaluate(Leaf(Gt, field, literal), value) <==>
      exists a, b :: IsReal(GetField(value, field), a) && IsReal(Some(literal), b) && a > b
    ensures Evaluate(Leaf(Gte, field, literal), value) <==>
      exists a, b :: IsReal(GetField(value, field), a) && IsReal(Some(literal), b) && a >= b
    ensures Evaluate(Leaf(Lt, field, literal), value) <==>
      exists a, b :: IsReal(GetField(value, field), a) && IsReal(Some(literal), b) && a < b
    ensures Evaluate(Leaf(Lte, field, literal), value) <==>
      exists a, b :: IsReal(GetField(value, field), a) && IsReal(Some(literal), b) && a <= b
  {
    hide GetField;
    var actual := GetField(value, field);
    if actual.Some? && actual.value.Number? && literal.Number? {
      assert IsReal(actual, AsReal(actual.value.n)) && IsReal(Some(literal), AsReal(literal.n));
    }
  }

  lemma {:induction false} AllMeans(es: seq<FilterExpr>, value: Json)
    ensures EvaluateAll(es, value) <==> forall e :: e in es ==> Evaluate(e, value)
    ensures EvaluateAny(es, value) <==> exists e :: e in es && Evaluate(e, value)
  {
    if es == [] {
      assert forall e :: e !in es;
    } else {
      var rest := es[1..];
      assert EvaluateAll(es, value) <==> Evaluate(es[0], value) && EvaluateAll(rest, value);
      assert EvaluateAny(es, value) <==> Evaluate(es[0], value) || EvaluateAny(rest, value);
      hide Evaluate, EvaluateAll, EvaluateAny;
      AllMeans(rest, value);
      assert es[0] in es && forall e :: e in rest ==> e in es;
      assert forall e :: e in es ==> e == es[0] || e in rest;
    }
  }

  /** Conjunctions hold when every operand does, disjunctions when some operand does, negations when theirs does not. */
  lemma ConnectivesMean(es: seq<FilterExpr>, f: FilterExpr, value: Json)
    ensures Evaluate(And(es), value) <==> forall e :: e in es ==> Evaluate(e, value)
    ensures Evaluate(Or(es), value) <==> exists e :: e in es && Evaluate(e, value)
    ensures Evaluate(FilterExpr.Not(f), value) <==> !Evaluate(f, value)
  {
    AllMeans(es, value);
  }

  /** The comparisons of a filter, left to right. */
  function Leaves(f: FilterExpr): (r: seq<FilterExpr>)
    ensures forall l :: l in r ==> l.Leaf?
    decreases f, 1
  {
    match f
    case Leaf(_, _, _) => [f]
    case And(es) => LeavesOf(es)
    case Or(es) => LeavesOf(es)
    case Not(e) => Leaves(e)
  }

  function LeavesOf(es: seq<FilterExpr>): (r: seq<FilterExpr>)
    ensures forall l :: l in r ==> l.Leaf?
    decreases es, 0
  {
    if es == [] then [] else Leaves(es[0]) + LeavesOf(es[1..])
  }

  /** No AND and no OR without an operand. */
  predicate NonEmpty(f: FilterExpr)
    decreases f, 1
  {
    match f
    case Leaf(_, _, _) => true
    case And(es) => es != [] && NonEmptyAll(es)
    case Or(es) => es != [] && NonEmptyAll(es)
    case Not(e) => NonEmpty(e)
  }

  predicate NonEmptyAll(es: seq<FilterExpr>)
    decreases es, 0
  {
    es == [] || (NonEmpty(es[0]) && NonEmptyAll(es[1..]))
  }
}

/** SQL search conditions as tokens, parsed with NOT over AND over OR and evaluated in three-valued logic. */
module SqlConditions {
  import opened Wrappers
  import opened Filters

  /** A predicate with one parameter: the namespace pattern, or a comparison of what a path literal selects. */
  datatype Atom = Like | Compare(op: CmpOp, path: string)

  datatype Token = Open | Close | KwAnd | KwOr | KwNot | Pred(atom: Atom, param: nat)

  datatype Condition =
    | Test(atom: Atom, param: nat)
    | Both(left: Condition, right: Condition)
    | Either(left: Condition, right: Condition)
    | Negation(inner: Condition)

  type Parsed = Option<(Condition, seq<Token>)>

  /** search condition ::= boolean term { OR boolean term } */
  function ParseOr(ts: seq<Token>): (r: Parsed)
    ensures r.Some? ==> |r.value.1| < |ts|
    decreases |ts|, 4
  {
    match ParseAnd(ts)
    case None => None
    case Some((c, rest)) => OrTail(c, rest)
  }

  function OrTail(left: Condition, ts: seq<Token>): (r: Parsed)
    ensures r.Some? ==> |r.value.1| <= |ts|
    decreases |ts|, 3
  {
    if ts == [] || ts[0] != KwOr then Some((left, ts))
    else match ParseAnd(ts[1..])
      case None => None
      case Some((c, rest)) => OrTail(Either(left, c), rest)
  }

  /** boolean term ::= boolean factor { AND boolean factor } */
  function ParseAnd(ts: seq<Token>): (r: Parsed)
    ensures r.Some? ==> |r.value.1| < |ts|
    decreases |ts|, 2
  {
    match ParseFactor(ts)
    case None => None
    case Some((c, rest)) => AndTail(c, rest)
  }

  function AndTail(left: Condition, ts: seq<Token>): (r: Parsed)
    ensures r.Some? ==> |r.value.1| <= |ts|
    decreases |ts|, 1
  {
    if ts == [] || ts[0] != KwAnd then Some((left, ts))
    else match ParseFactor(ts[1..])
      case None => None
      case Some((c, rest)) => AndTail(Both(left, c), rest)
  }

  /** boolean factor ::= [ NOT ] boolean primary */
  function ParseFactor(ts: seq<Token>): (r: Parsed)
    ensures r.Some? ==> |r.value.1| < |ts|
    decreases |ts|, 1
  {
    if ts == [] then None
    else if ts[0] == KwNot then
      match ParsePrimary(ts[1..])
      case None => None
      case Some((c, rest)) => Some((Negation(c), rest))
    else ParsePrimary(ts)
  }

  /** boolean primary ::= predicate | ( search condition ) */
  function ParsePrimary(ts: seq<Token>): (r: Parsed)
    ensures r.Some? ==> |r.value.1| < |ts|
    decreases |ts|, 0
  {
    if ts == [] then None
    else match ts[0]
      case Pred(atom, param) => Some((Test(atom, param), ts[1..]))
      case Open =>
        (match ParseOr(ts[1..])
         case None => None
         case Some((c, rest)) => if rest != [] && rest[0] == Close then Some((c, rest[1..])) else None)
      case _ => None
  }

  /** A whole condition: nothing may be left over. */
  function Parse(ts: seq<Token>): Option<Condition> {
    match ParseOr(ts)
    case None => None
    case Some((c, rest)) => if rest == [] then Some(c) else None
  }

  // ----- Three-valued logic -----

  datatype Truth = True | False | Unknown

  function And3(a: Truth, b: Truth): Truth {
    if a == False || b == False then False
    else if a == True && b == True then True
    else Unknown
  }

  function Not3(a: Truth): Truth {
    match a
    case True => False
    case False => True
    case Unknown => Unknown
  }

  function Or3(a: Truth, b: Truth): Truth {
    Not3(And3(Not3(a), Not3(b)))
  }

  /** How one row answers an atom with its bound text; the database decides. */
  type Row = (Atom, string) -> Truth

  /** Parameter `$k` is the k-th bound text; an unbound one is NULL. */
  function Value(c: Condition, binds: seq<string>, row: Row): Truth {
    match c
    case Test(atom, k) => if 1 <= k <= |binds| then row(atom, binds[k - 1]) else Unknown
    case Both(a, b) => And3(Value(a, binds, row), Value(b, binds, row))
    case Either(a, b) => Or3(Value(a, binds, row), Value(b, binds, row))
    case Negation(a) => Not3(Value(a, binds, row))
  }
}
