/**
 * When a database answers a comparison as the in-memory evaluator does. Literals are bound as text, so
 * two that bind alike cannot be told apart, and a stored value only equals a literal that reads alike.
 */
module BoundTexts {
  import opened Wrappers
  import opened Json
  import opened Filters
  import opened SqlConditions
  import opened SqlCompiler
  import opened SqlPaths
  import opened SqlEvaluation

  // ----- Which answers a row can give at all -----

  /** For the database these are one comparison: same operator, same path text, same bound text. */
  predicate SameTest(d: Dialect, l: FilterExpr, m: FilterExpr, bind: Json -> string)
    requires l.Leaf? && m.Leaf?
  {
    l.op == m.op && PathText(d, l.field) == PathText(d, m.field) && bind(l.value) == bind(m.value)
  }

  /** The first leaf that makes this comparison gives its answer. */
  function AnswerFor(
      d: Dialect, leaves: seq<FilterExpr>, answer: FilterExpr -> Truth, bind: Json -> string, atom: Atom, text: string)
    : Truth
    requires forall l :: l in leaves ==> l.Leaf?
  {
    if leaves == [] then Unknown
    else if atom == Compare(leaves[0].op, PathText(d, leaves[0].field)) && text == bind(leaves[0].value)
    then answer(leaves[0])
    else AnswerFor(d, leaves[1..], answer, bind, atom, text)
  }

  /** The row gives each leaf the wanted answer. */
  ghost predicate Answers(
      d: Dialect, leaves: seq<FilterExpr>, answer: FilterExpr -> Truth, row: Row, bind: Json -> string) {
    forall l :: l in leaves ==> l.Leaf? && RowAnswer(d, l, row, bind) == answer(l)
  }

  lemma {:induction false} AnswerForLeaf(
      d: Dialect, leaves: seq<FilterExpr>, answer: FilterExpr -> Truth, bind: Json -> string, l: FilterExpr)
    requires (forall m :: m in leaves ==> m.Leaf?) && l in leaves
    requires forall m :: m in leaves && SameTest(d, m, l, bind) ==> answer(m) == answer(l)
    ensures AnswerFor(d, leaves, answer, bind, Compare(l.op, PathText(d, l.field)), bind(l.value)) == answer(l)
  {
    hide PathText;
    if SameTest(d, leaves[0], l, bind) {
      assert leaves[0] in leaves;
    } else {
      AnswerForLeaf(d, leaves[1..], answer, bind, l);
    }
  }

  /** Wanted answers can be given exactly when no comparison is wanted to have two. */
  lemma RowExistsIff(d: Dialect, leaves: seq<FilterExpr>, answer: FilterExpr -> Truth, bind: Json -> string)
    requires forall l :: l in leaves ==> l.Leaf?
    ensures (exists row: Row :: Answers(d, leaves, answer, row, bind)) <==>
      forall l, m :: l in leaves && m in leaves && SameTest(d, l, m, bind) ==> answer(l) == answer(m)
  {
    hide PathText;
    if forall l, m :: l in leaves && m in leaves && SameTest(d, l, m, bind) ==> answer(l) == answer(m) {
      var row: Row := (atom, text) => AnswerFor(d, leaves, answer, bind, atom, text);
      forall l | l in leaves ensures RowAnswer(d, l, row, bind) == answer(l) {
        AnswerForLeaf(d, leaves, answer, bind, l);
      }
      assert Answers(d, leaves, answer, row, bind);
    }
  }

  /** Comparing what is found treats leaves that the database cannot tell apart alike. */
  ghost predicate Consistent(d: Dialect, leaves: seq<FilterExpr>, value: Json, bind: Json -> string)
    requires forall l :: l in leaves ==> l.Leaf?
  {
    forall l, m :: l in leaves && m in leaves && SameTest(d, l, m, bind) ==>
      var found := Found(d, PathText(d, l.field), value);
      IsNull(found) || (Compares(l.op, found, l.value) <==> Compares(m.op, found, m.value))
  }

  ghost function Wanted(d: Dialect, value: Json): FilterExpr -> Truth {
    (l: FilterExpr) => if l.Leaf? then LeafAnswer(d, l, value) else Unknown
  }

  /**
   * Some row compares what is found as the evaluator would, with NULL where nothing is, exactly when no
   * two leaves with one operator, path and bound text differ over what is found.
   */
  lemma AgreeingRowIff(d: Dialect, f: FilterExpr, value: Json, bind: Json -> string)
    ensures (exists row: Row :: ComparesFound(d, Leaves(f), value, row, bind)) <==>
      Consistent(d, Leaves(f), value, bind)
  {
    var leaves := Leaves(f);
    hide PathText, Leaves, Compares, Found;
    RowExistsIff(d, leaves, Wanted(d, value), bind);
    forall row: Row
      ensures Answers(d, leaves, Wanted(d, value), row, bind) <==> ComparesFound(d, leaves, value, row, bind)
    {
    }
    if exists row: Row :: ComparesFound(d, leaves, value, row, bind) {
      var row: Row :| ComparesFound(d, leaves, value, row, bind);
      assert Answers(d, leaves, Wanted(d, value), row, bind);
    }
    if exists row: Row :: Answers(d, leaves, Wanted(d, value), row, bind) {
      var row: Row :| Answers(d, leaves, Wanted(d, value), row, bind);
      assert ComparesFound(d, leaves, value, row, bind);
    }
  }

  /** A string and a boolean that SQLite binds alike: over this value no row answers both as the evaluator does. */
  lemma NoAgreeingRow(jsonText: JsonText)
    ensures var f := And([Leaf(Eq, "a", Str("1")), Leaf(Eq, "a", Bool(true))]);
      forall row: Row :: !ComparesFound(Sqlite, Leaves(f), Object(map["a" := Str("1")]), row, BindText(Sqlite, jsonText))
  {
    var l, m := Leaf(Eq, "a", Str("1")), Leaf(Eq, "a", Bool(true));
    var f, value := And([l, m]), Object(map["a" := Str("1")]);
    assert [l, m][1..] == [m] && [m][1..] == [];
    assert Leaves(l) == [l] && Leaves(m) == [m] && LeavesOf([m]) == [m];
    assert Leaves(f) == LeavesOf([l, m]) == [l] + [m];
    assert l in Leaves(f) && m in Leaves(f);
    FoundAtKey(Str("1"));
    hide Found, Leaves;
    AgreeingRowIff(Sqlite, f, value, BindText(Sqlite, jsonText));
    assert !Consistent(Sqlite, Leaves(f), value, BindText(Sqlite, jsonText)) by {
      assert SameTest(Sqlite, l, m, BindText(Sqlite, jsonText));
    }
  }

  lemma FoundAtKey(v: Json)
    ensures Found(Sqlite, PathText(Sqlite, "a"), Object(map["a" := v])) == Some(v)
  {
    FoundIff(Sqlite, "a");
    hide Found;
    assert "a"[1..] == "" && Namespaces.Split("", '.') == [""];
    assert ['a'] + "" == "a" && [""][1..] == [];
    assert Namespaces.Split("a", '.') == ["a"];
    assert ["a"][1..] == [];
  }

  // ----- Equality as a comparison of texts -----

  /**
   * The text of a stored value that a bound text is compared with. SQLite extracts numbers and
   * booleans as numbers, which equal no text.
   */
  function Rendered(d: Dialect, stored: Json, jsonText: JsonText): Option<string> {
    if stored.Str? then Some(stored.s)
    else if d.Sqlite? && (stored.Number? || stored.Bool?) then None
    else Some(jsonText(stored))
  }

  /** How `=` and `!=` answer: NULL where the path literal finds nothing, and otherwise by the texts. */
  function TextAnswer(d: Dialect, l: FilterExpr, value: Json, jsonText: JsonText): Truth
    requires l.Leaf? && !Ordered(l.op)
  {
    var found := Found(d, PathText(d, l.field), value);
    if IsNull(found) then Unknown
    else
      var equal := Rendered(d, found.value, jsonText) == Some(BindText(d, jsonText)(l.value));
      Known(if l.op.Eq? then equal else !equal)
  }

  /** The texts are equal exactly when the values are. */
  ghost predicate TextsTell(d: Dialect, stored: Json, literal: Json, jsonText: JsonText) {
    Rendered(d, stored, jsonText) == Some(BindText(d, jsonText)(literal)) <==> stored == literal
  }

  /** Nothing is found, or the texts decide rightly about what is. */
  ghost predicate Tells(d: Dialect, l: FilterExpr, value: Json, jsonText: JsonText)
    requires l.Leaf?
  {
    var found := Found(d, PathText(d, l.field), value);
    IsNull(found) || TextsTell(d, found.value, l.value, jsonText)
  }

  lemma TextAnswerAgreesIff(d: Dialect, l: FilterExpr, value: Json, jsonText: JsonText)
    requires l.Leaf? && !Ordered(l.op)
    ensures TextAnswer(d, l, value, jsonText) == LeafAnswer(d, l, value) <==> Tells(d, l, value, jsonText)
  {
    hide Rendered, BindText, Found;
  }

  /** JSON text puts strings in quotes. */
  ghost predicate QuotesStrings(jsonText: JsonText) {
    forall s :: |jsonText(Str(s))| >= |s| + 2
  }

  /**
   * Postgres binds JSON text and extracts strings bare: equality is decided rightly exactly when the
   * stored value is no string, or differs from the literal and from the literal's JSON text.
   */
  lemma PostgresTellsIff(stored: Json, literal: Json, jsonText: JsonText)
    requires QuotesStrings(jsonText)
    requires jsonText(stored) == jsonText(literal) ==> stored == literal
    ensures TextsTell(Postgres, stored, literal, jsonText) <==>
      (stored.Str? ==> stored != literal && stored.s != jsonText(literal))
  {
    if stored.Str? {
      assert |jsonText(Str(stored.s))| >= |stored.s| + 2;
    }
  }

  /**
   * SQLite binds strings bare and booleans as digits: equality is decided rightly between strings, for a
   * string and what does not bind to it, for a number or boolean and what it differs from, and for an
   * array or object and all but its own JSON text.
   */
  lemma SqliteTellsIff(stored: Json, literal: Json, jsonText: JsonText)
    requires !stored.Null?
    requires (stored.Array? || stored.Object?) && !literal.Str? && jsonText(stored) == BindText(Sqlite, jsonText)(literal) ==>
      stored == literal
    ensures TextsTell(Sqlite, stored, literal, jsonText) <==>
      match stored
      case Str(s) => literal.Str? || s != BindText(Sqlite, jsonText)(literal)
      case Number(_) => stored != literal
      case Bool(_) => stored != literal
      case _ => literal != Str(jsonText(stored))
  {
  }

  /** The row compares texts for every leaf, all of them `$eq` or `$ne`. */
  ghost predicate ComparesTexts(
      d: Dialect, leaves: seq<FilterExpr>, value: Json, row: Row, jsonText: JsonText) {
    forall l :: l in leaves ==>
      l.Leaf? && !Ordered(l.op) && RowAnswer(d, l, row, BindText(d, jsonText)) == TextAnswer(d, l, value, jsonText)
  }

  /** Comparing texts answers a filter as the evaluator does exactly when the texts decide every equality rightly. */
  lemma ComparingTextsAgreesIff(d: Dialect, leaves: seq<FilterExpr>, value: Json, row: Row, jsonText: JsonText)
    requires ComparesTexts(d, leaves, value, row, jsonText)
    ensures ComparesFound(d, leaves, value, row, BindText(d, jsonText)) <==>
      forall l :: l in leaves ==> Tells(d, l, value, jsonText)
  {
    hide TextAnswer, LeafAnswer, Tells, RowAnswer;
    forall l | l in leaves
      ensures RowAnswer(d, l, row, BindText(d, jsonText)) == LeafAnswer(d, l, value) <==> Tells(d, l, value, jsonText)
    {
      TextAnswerAgreesIff(d, l, value, jsonText);
    }
  }

  /** A leaf that compares strings, over a value with a string or nothing there. */
  predicate StringsOnly(l: FilterExpr, value: Json)
    requires l.Leaf?
  {
    !Ordered(l.op) && l.value.Str? && (Absent(value, l.field) || GetField(value, l.field).value.Str?)
  }

  /** SQLite selects by strings as the evaluator does, where the polarity lets NULL count as the evaluator's value. */
  lemma SqliteStringsAgree(f: FilterExpr, value: Json, row: Row, jsonText: JsonText)
    requires Polar(f, true) && AllAddressed(Sqlite, Leaves(f)) && forall l :: l in Leaves(f) ==> StringsOnly(l, value)
    requires ComparesTexts(Sqlite, Leaves(f), value, row, jsonText)
    ensures Kleene(Sqlite, f, row, BindText(Sqlite, jsonText)) == True <==> Evaluate(f, value)
  {
    hide GetField, Leaves, Rendered, BindText, Found, Addressed, PathText;
    forall l | l in Leaves(f) ensures Tells(Sqlite, l, value, jsonText) {
      FoundIff(Sqlite, l.field);
      assert Found(Sqlite, PathText(Sqlite, l.field), value) == GetField(value, l.field);
      if !Absent(value, l.field) {
        SqliteTellsIff(GetField(value, l.field).value, l.value, jsonText);
      }
    }
    ComparingTextsAgreesIff(Sqlite, Leaves(f), value, row, jsonText);
    PolarFiltersAgree(Sqlite, f, true, value, row, BindText(Sqlite, jsonText));
  }

  /** And there is such a row in either dialect: what a comparison answers depends on its texts alone. */
  lemma ComparesTextsExists(d: Dialect, leaves: seq<FilterExpr>, value: Json, jsonText: JsonText) returns (row: Row)
    requires forall l :: l in leaves ==> l.Leaf? && !Ordered(l.op)
    ensures ComparesTexts(d, leaves, value, row, jsonText)
  {
    hide Found, PathText, BindText, Rendered;
    var bind := BindText(d, jsonText);
    var answer: FilterExpr -> Truth :=
      (l: FilterExpr) => if l.Leaf? && !Ordered(l.op) then TextAnswer(d, l, value, jsonText) else Unknown;
    RowExistsIff(d, leaves, answer, bind);
    row :| Answers(d, leaves, answer, row, bind);
  }

  // ----- Where the texts mislead -----

  /** Postgres never finds a stored string equal to itself: `$eq` loses the row and `$ne` selects it. */
  lemma PostgresStringsNeverEqual(field: string, s: string, value: Json, row: Row, jsonText: JsonText)
    requires QuotesStrings(jsonText) && Addressed(Postgres, field) && GetField(value, field) == Some(Str(s))
    requires ComparesTexts(Postgres, [Leaf(Eq, field, Str(s)), Leaf(Ne, field, Str(s))], value, row, jsonText)
    ensures var eq, ne := Leaf(Eq, field, Str(s)), Leaf(Ne, field, Str(s));
      && Evaluate(eq, value) && Kleene(Postgres, eq, row, BindText(Postgres, jsonText)) == False
      && !Evaluate(ne, value) && Kleene(Postgres, ne, row, BindText(Postgres, jsonText)) == True
  {
    var eq, ne := Leaf(Eq, field, Str(s)), Leaf(Ne, field, Str(s));
    assert eq in [eq, ne] && ne in [eq, ne];
    assert |jsonText(Str(s))| >= |s| + 2;
    FoundIff(Postgres, field);
    assert Found(Postgres, PathText(Postgres, field), value) == GetField(value, field);
    hide GetField, PathText, Found, Addressed;
  }

  /** SQLite takes a boolean literal for the string of its digit. */
  lemma SqliteBooleanIsText(field: string, b: bool, value: Json, row: Row, jsonText: JsonText)
    requires Addressed(Sqlite, field) && GetField(value, field) == Some(Str(if b then "1" else "0"))
    requires ComparesTexts(Sqlite, [Leaf(Eq, field, Bool(b))], value, row, jsonText)
    ensures var eq := Leaf(Eq, field, Bool(b));
      !Evaluate(eq, value) && Kleene(Sqlite, eq, row, BindText(Sqlite, jsonText)) == True
  {
    var eq := Leaf(Eq, field, Bool(b));
    assert eq in [eq];
    FoundIff(Sqlite, field);
    assert Found(Sqlite, PathText(Sqlite, field), value) == GetField(value, field);
    hide GetField, PathText, Found, Addressed;
  }

  /** And it never finds a stored number or boolean equal to itself. */
  lemma SqliteNumbersNeverEqual(field: string, v: Json, value: Json, row: Row, jsonText: JsonText)
    requires Addressed(Sqlite, field) && (v.Number? || v.Bool?) && GetField(value, field) == Some(v)
    requires ComparesTexts(Sqlite, [Leaf(Eq, field, v), Leaf(Ne, field, v)], value, row, jsonText)
    ensures var eq, ne := Leaf(Eq, field, v), Leaf(Ne, field, v);
      && Evaluate(eq, value) && Kleene(Sqlite, eq, row, BindText(Sqlite, jsonText)) == False
      && !Evaluate(ne, value) && Kleene(Sqlite, ne, row, BindText(Sqlite, jsonText)) == True
  {
    var eq, ne := Leaf(Eq, field, v), Leaf(Ne, field, v);
    assert eq in [eq, ne] && ne in [eq, ne];
    FoundIff(Sqlite, field);
    assert Found(Sqlite, PathText(Sqlite, field), value) == GetField(value, field);
    hide GetField, PathText, Found, Addressed;
  }
}
