/** Compiling filter expressions to SQL text with parameters, for SQLite and for Postgres. */
module SqlCompiler {
  import opened Wrappers
  import opened Seqs
  import opened Json
  import opened Namespaces
  import opened Filters

  datatype Dialect = Sqlite | Postgres

  // ----- Text -----

  function OpText(op: CmpOp): string {
    match op
    case Eq => "="
    case Ne => "!="
    case Gt => ">"
    case Gte => ">="
    case Lt => "<"
    case Lte => "<="
  }

  function Join(parts: seq<string>, sep: string): string {
    if parts == [] then "" else parts[0] + JoinTail(parts[1..], sep)
  }

  function JoinTail(parts: seq<string>, sep: string): string {
    if parts == [] then "" else sep + parts[0] + JoinTail(parts[1..], sep)
  }

  /** The range operators compare numbers, both sides under a cast. */
  predicate Ordered(op: CmpOp) {
    !op.Eq? && !op.Ne?
  }

  /** What stands between the quotes of the path literal; the field is spliced in as it is. */
  function PathText(d: Dialect, field: string): string {
    match d
    case Sqlite => "$." + field
    case Postgres => "{" + Join(Split(field, '.'), ",") + "}"
  }

  /** A comparison up to the opening quote of its path literal. */
  function Front(d: Dialect, ordered: bool): string {
    match d
    case Sqlite => if ordered then "CAST(json_extract(value, '" else "json_extract(value, '"
    case Postgres => if ordered then "(value #> '" else "value #>> '"
  }

  /** From the closing quote to the operator. */
  function Middle(d: Dialect, ordered: bool): string {
    match d
    case Sqlite => if ordered then ") AS REAL) " else ") "
    case Postgres => if ordered then ")::numeric " else " "
  }

  /** From the operator to the placeholder. */
  function Lead(ordered: bool): string {
    if ordered then " CAST(" else " "
  }

  /** A comparison up to its placeholder. */
  function Head(d: Dialect, op: CmpOp, path: string): string {
    Front(d, Ordered(op)) + path + "'" + Middle(d, Ordered(op)) + OpText(op) + Lead(Ordered(op))
  }

  /** A comparison after its placeholder. */
  function Tail(d: Dialect, op: CmpOp): string {
    if !Ordered(op) then "" else if d.Sqlite? then " AS REAL)" else " AS numeric)"
  }

  /** The clause and its parameters, in placeholder order. */
  function FilterToSql(d: Dialect, f: FilterExpr): (string, seq<Json>)
    decreases f, 1
  {
    match f
    case Leaf(op, field, value) => (Head(d, op, PathText(d, field)) + "?" + Tail(d, op), [value])
    case And(es) => (Join(Clauses(d, es), " AND "), Params(d, es))
    case Or(es) => (Join(Clauses(d, es), " OR "), Params(d, es))
    case Not(e) => ("NOT (" + FilterToSql(d, e).0 + ")", FilterToSql(d, e).1)
  }

  function Clauses(d: Dialect, es: seq<FilterExpr>): seq<string>
    decreases es, 0
  {
    if es == [] then [] else ["(" + FilterToSql(d, es[0]).0 + ")"] + Clauses(d, es[1..])
  }

  function Params(d: Dialect, es: seq<FilterExpr>): seq<Json>
    decreases es, 0
  {
    if es == [] then [] else FilterToSql(d, es[0]).1 + Params(d, es[1..])
  }

  lemma {:induction false} ClausesSnoc(d: Dialect, es: seq<FilterExpr>, e: FilterExpr)
    ensures Clauses(d, es + [e]) == Clauses(d, es) + ["(" + FilterToSql(d, e).0 + ")"]
  {
    hide FilterToSql;
    if es == [] {
      assert es + [e] == [e] && [e][1..] == [];
    } else {
      assert (es + [e])[1..] == es[1..] + [e];
      ClausesSnoc(d, es[1..], e);
    }
  }

  lemma {:induction false} ParamsSnoc(d: Dialect, es: seq<FilterExpr>, e: FilterExpr)
    ensures Params(d, es + [e]) == Params(d, es) + FilterToSql(d, e).1
  {
    hide FilterToSql;
    if es == [] {
      assert es + [e] == [e] && [e][1..] == [];
    } else {
      assert (es + [e])[1..] == es[1..] + [e];
      ParamsSnoc(d, es[1..], e);
    }
  }

  /** The compilers, with their accumulating loops. */
  method CompileFilter(d: Dialect, f: FilterExpr) returns (clause: string, params: seq<Json>)
    ensures (clause, params) == FilterToSql(d, f)
    decreases f
  {
    match f
    case Leaf(op, field, value) =>
      return Head(d, op, PathText(d, field)) + "?" + Tail(d, op), [value];
    case Not(e) =>
      clause, params := CompileFilter(d, e);
      clause := "NOT (" + clause + ")";
    case And(es) =>
      var clauses, allParams := CompileEach(d, es);
      return Join(clauses, " AND "), allParams;
    case Or(es) =>
      var clauses, allParams := CompileEach(d, es);
      return Join(clauses, " OR "), allParams;
  }

  method CompileEach(d: Dialect, es: seq<FilterExpr>) returns (clauses: seq<string>, allParams: seq<Json>)
    ensures clauses == Clauses(d, es) && allParams == Params(d, es)
    decreases es
  {
    hide FilterToSql, Head, Tail;
    clauses, allParams := [], [];
    for i := 0 to |es|
      invariant clauses == Clauses(d, es[..i]) && allParams == Params(d, es[..i])
    {
      var clause, params := CompileFilter(d, es[i]);
      ClausesSnoc(d, es[..i], es[i]);
      ParamsSnoc(d, es[..i], es[i]);
      assert es[..i + 1] == es[..i] + [es[i]];
      clauses := clauses + ["(" + clause + ")"];
      allParams := allParams + params;
    }
    assert es[..|es|] == es;
  }

  // ----- Postgres placeholders -----

  function Decimal(n: nat): string {
    var digit := ['0' + (n % 10) as char];
    if n < 10 then digit else Decimal(n / 10) + digit
  }

  function Renumber(s: string, next: nat): string {
    if s == "" then ""
    else if s[0] == '?' then "$" + Decimal(next) + Renumber(s[1..], next + 1)
    else [s[0]] + Renumber(s[1..], next)
  }

  function IsMark(): char -> bool {
    c => c == '?'
  }

  function Marks(s: string): nat {
    |Filter(s, IsMark())|
  }

  lemma {:induction false} RenumberConcat(a: string, b: string, next: nat)
    ensures Renumber(a + b, next) == Renumber(a, next) + Renumber(b, next + Marks(a))
  {
    if a == "" {
      assert a + b == b;
    } else {
      hide Decimal, Renumber, Marks;
      var c, rest := a[0], a[1..];
      assert a == [c] + rest && a + b == [c] + (rest + b);
      RenumberConcat(rest, b, if c == '?' then next + 1 else next);
      var first := if c == '?' then "$" + Decimal(next) else [c];
      var x, y := Renumber(rest, if c == '?' then next + 1 else next), Renumber(b, next + Marks(a));
      assert first + (x + y) == (first + x) + y;
    }
  }

  lemma {:induction false} RenumberPlain(s: string, next: nat)
    requires '?' !in s
    ensures Renumber(s, next) == s && Marks(s) == 0
  {
    if s != "" {
      assert s[0] in s;
      RenumberPlain(s[1..], next);
    }
  }

  lemma RenumberSnoc(s: string, c: char, next: nat)
    ensures Renumber(s + [c], next)
         == Renumber(s, next) + if c == '?' then "$" + Decimal(next + Marks(s)) else [c]
    ensures Marks(s + [c]) == Marks(s) + if c == '?' then 1 else 0
  {
    hide Decimal;
    RenumberConcat(s, [c], next);
    FilterConcat(s, [c], IsMark());
    assert [c][1..] == "";
    var number := Decimal(next + Marks(s));
    assert "$" + number + "" == "$" + number;
  }

  /** The scan of `PostgresStore::search`: each `?` takes the next number. */
  method RenumberPlaceholders(clause: string, first: nat) returns (numbered: string, paramIdx: nat)
    ensures numbered == Renumber(clause, first)
    ensures paramIdx == first + Marks(clause)
  {
    hide Decimal, Renumber, Marks;
    RenumberPlain("", first);
    numbered, paramIdx := "", first;
    for i := 0 to |clause|
      invariant numbered == Renumber(clause[..i], first)
      invariant paramIdx == first + Marks(clause[..i])
    {
      var c := clause[i];
      assert clause[..i + 1] == clause[..i] + [c];
      RenumberSnoc(clause[..i], c, first);
      if c == '?' {
        numbered := numbered + "$" + Decimal(paramIdx);
        paramIdx := paramIdx + 1;
      } else {
        numbered := numbered + [c];
      }
    }
    assert clause[..|clause|] == clause;
  }

  // ----- The WHERE clause of a search -----

  /** Serializes a JSON value to text; `serde_json`'s `to_string`. */
  type JsonText = Json -> string

  /** SQLite binds booleans as 1 and 0 and strings bare; Postgres binds JSON text. */
  function BindText(d: Dialect, jsonText: JsonText): Json -> string {
    (v: Json) =>
      if d.Postgres? then jsonText(v)
      else match v
        case Bool(b) => if b then "1" else "0"
        case Str(s) => s
        case _ => jsonText(v)
  }

  function MapText(values: seq<Json>, text: Json -> string): (r: seq<string>)
    ensures |r| == |values| && forall i :: 0 <= i < |r| ==> r[i] == text(values[i])
  {
    seq(|values|, i requires 0 <= i < |values| => text(values[i]))
  }

  function SearchWhere(d: Dialect, prefix: string, filter: Option<FilterExpr>, jsonText: JsonText): (string, seq<string>) {
    var like := if d.Postgres? then "namespace LIKE $1" else "namespace LIKE ?";
    match filter
    case None => (like, [prefix + "%"])
    case Some(f) =>
      var (clause, params) := FilterToSql(d, f);
      var final := if d.Postgres? then Renumber(clause, 2) else clause;
      (like + " AND " + ("(" + final + ")"), [prefix + "%"] + MapText(params, BindText(d, jsonText)))
  }

  method BuildWhere(d: Dialect, prefix: string, filter: Option<FilterExpr>, jsonText: JsonText)
    returns (where: string, binds: seq<string>)
    ensures (where, binds) == SearchWhere(d, prefix, filter, jsonText)
  {
    hide FilterToSql, Renumber, Decimal, MapText, Join;
    var conditions := [if d.Postgres? then "namespace LIKE $1" else "namespace LIKE ?"];
    binds := [prefix + "%"];
    if filter.Some? {
      var clause, params := CompileFilter(d, filter.value);
      if d.Postgres? {
        var paramIdx;
        clause, paramIdx := RenumberPlaceholders(clause, 2);
      }
      conditions := conditions + ["(" + clause + ")"];
      binds := BindAll(d, binds, params, jsonText);
      JoinTwo(conditions[0], "(" + clause + ")", " AND ");
      assert conditions == [conditions[0], "(" + clause + ")"];
    } else {
      JoinOne(conditions[0], " AND ");
    }
    where := Join(conditions, " AND ");
  }

  method BindAll(d: Dialect, first: seq<string>, params: seq<Json>, jsonText: JsonText) returns (binds: seq<string>)
    ensures binds == first + MapText(params, BindText(d, jsonText))
  {
    binds := first;
    ghost var texts := MapText(params, BindText(d, jsonText));
    for i := 0 to |params|
      invariant binds == first + texts[..i]
    {
      binds := binds + [BindText(d, jsonText)(params[i])];
    }
    assert texts[..|params|] == texts;
  }

  lemma JoinOne(a: string, sep: string)
    ensures Join([a], sep) == a
  {
    assert [a][1..] == [];
    assert a + "" == a;
  }

  lemma JoinTwo(a: string, b: string, sep: string)
    ensures Join([a, b], sep) == a + sep + b
  {
    assert [a, b][1..] == [b] && [b][1..] == [];
    assert JoinTail([b], sep) == sep + b + "" == sep + b;
    assert a + (sep + b) == a + sep + b;
  }
}
