/** What the emitted WHERE clause selects, against the filter tree and against the in-memory evaluator. */
module SqlEvaluation {
  import opened Wrappers
  import opened Json
  import opened Filters
  import opened SqlConditions
  import opened SqlCompiler
  import opened SqlMeaning
  import opened SqlLexing
  import opened SqlPaths

  // ----- Three-valued meaning of the tree -----

  /** Kleene evaluation, each leaf answered by the row for its own literal. */
  function Kleene(d: Dialect, f: FilterExpr, row: Row, bind: Json -> string): Truth
    decreases f, 1
  {
    match f
    case Leaf(op, field, value) => row(Compare(op, PathText(d, field)), bind(value))
    case And(es) => KleeneAll(d, es, row, bind)
    case Or(es) => KleeneAny(d, es, row, bind)
    case Not(e) => Not3(Kleene(d, e, row, bind))
  }

  function KleeneAll(d: Dialect, es: seq<FilterExpr>, row: Row, bind: Json -> string): Truth
    decreases es, 0
  {
    if es == [] then True else And3(Kleene(d, es[0], row, bind), KleeneAll(d, es[1..], row, bind))
  }

  function KleeneAny(d: Dialect, es: seq<FilterExpr>, row: Row, bind: Json -> string): Truth
    decreases es, 0
  {
    if es == [] then False else Or3(Kleene(d, es[0], row, bind), KleeneAny(d, es[1..], row, bind))
  }

  // ----- Parsing the clause recovers the tree -----

  /** Parameters `n`, `n + 1`, ... are bound to these literals. */
  ghost predicate BoundFrom(leaves: seq<FilterExpr>, n: nat, binds: seq<string>, bind: Json -> string) {
    && n >= 1
    && n - 1 + |leaves| <= |binds|
    && forall i :: 0 <= i < |leaves| ==> leaves[i].Leaf? && binds[n - 1 + i] == bind(leaves[i].value)
  }

  /** The parser stops with this value and this rest. */
  ghost predicate Yields(r: Parsed, rest: seq<Token>, value: Truth, binds: seq<string>, row: Row) {
    r.Some? && r.value.1 == rest && Value(r.value.0, binds, row) == value
  }

  ghost predicate Ends(rest: seq<Token>) {
    rest == [] || rest[0] == Close
  }

  lemma BoundSplit(a: seq<FilterExpr>, b: seq<FilterExpr>, n: nat, binds: seq<string>, bind: Json -> string)
    requires BoundFrom(a + b, n, binds, bind)
    ensures BoundFrom(a, n, binds, bind) && BoundFrom(b, n + |a|, binds, bind)
  {
    forall i | 0 <= i < |a| ensures a[i].Leaf? && binds[n - 1 + i] == bind(a[i].value) {
      assert (a + b)[i] == a[i];
    }
    forall i | 0 <= i < |b| ensures b[i].Leaf? && binds[n + |a| - 1 + i] == bind(b[i].value) {
      assert (a + b)[|a| + i] == b[i];
    }
  }

  lemma {:induction false} ParseClause(
      d: Dialect, f: FilterExpr, n: nat, rest: seq<Token>, binds: seq<string>, row: Row, bind: Json -> string)
    requires Ends(rest) && BoundFrom(Leaves(f), n, binds, bind)
    ensures var r := ParseOr(Tokens(d, f, n) + rest);
      if NonEmpty(f) then Yields(r, rest, Kleene(d, f, row, bind), binds, row) else r.None?
    decreases f, 2
  {
    hide PathText, Group;
    var ts := Tokens(d, f, n) + rest;
    match f
    case Leaf(op, field, value) =>
      assert ts[0] == Pred(Compare(op, PathText(d, field)), n) && ts[1..] == rest;
      assert Leaves(f)[0] == f;
      assert ParsePrimary(ts) == Some((Test(Compare(op, PathText(d, field)), n), rest));
      TermIsFactor(ts);
      ConditionIsTerm(ts);
    case Not(e) =>
      assert ts == [KwNot] + (Group(d, e, n) + rest);
      assert ts[1..] == Group(d, e, n) + rest;
      hide Tokens, Leaves;
      ParseGroup(d, e, n, rest, binds, row, bind);
      if NonEmpty(e) {
        TermIsFactor(ts);
        ConditionIsTerm(ts);
      } else {
        NoFactorNoCondition(ts);
      }
    case And(es) =>
      if es == [] {
        assert ts == rest;
        NoFactorNoCondition(ts);
      } else {
        ParseConjunction(d, es, n, rest, binds, row, bind);
      }
    case Or(es) =>
      if es == [] {
        assert ts == rest;
        NoFactorNoCondition(ts);
      } else {
        ParseDisjunction(d, es, n, rest, binds, row, bind);
      }
  }

  /** A list's clause is its first group and the groups that follow. */
  lemma ListTokens(d: Dialect, es: seq<FilterExpr>, n: nat, rest: seq<Token>)
    requires es != []
    ensures var m := n + |Leaves(es[0])|;
      && Tokens(d, And(es), n) + rest == Group(d, es[0], n) + (GroupTail(d, es[1..], m, KwAnd) + rest)
      && Tokens(d, Or(es), n) + rest == Group(d, es[0], n) + (GroupTail(d, es[1..], m, KwOr) + rest)
  {
    hide Group;
  }

  lemma {:induction false} ParseConjunction(
      d: Dialect, es: seq<FilterExpr>, n: nat, rest: seq<Token>, binds: seq<string>, row: Row, bind: Json -> string)
    requires es != [] && Ends(rest) && BoundFrom(LeavesOf(es), n, binds, bind)
    ensures var r := ParseOr(Tokens(d, And(es), n) + rest);
      if NonEmptyAll(es) then Yields(r, rest, KleeneAll(d, es, row, bind), binds, row) else r.None?
    decreases es, 2
  {
    hide Tokens, Group;
    var ts := Tokens(d, And(es), n) + rest;
    var m := n + |Leaves(es[0])|;
    var tail := GroupTail(d, es[1..], m, KwAnd) + rest;
    BoundSplit(Leaves(es[0]), LeavesOf(es[1..]), n, binds, bind);
    ListTokens(d, es, n, rest);
    ParseGroup(d, es[0], n, tail, binds, row, bind);
    if NonEmpty(es[0]) {
      var c := ParseFactor(ts).value.0;
      ParseAndTail(d, c, es[1..], m, rest, binds, row, bind);
      assert ParseAnd(ts) == AndTail(c, tail);
      if NonEmptyAll(es[1..]) {
        ConditionIsTerm(ts);
      }
    } else {
      NoFactorNoCondition(ts);
    }
  }

  lemma {:induction false} ParseDisjunction(
      d: Dialect, es: seq<FilterExpr>, n: nat, rest: seq<Token>, binds: seq<string>, row: Row, bind: Json -> string)
    requires es != [] && Ends(rest) && BoundFrom(LeavesOf(es), n, binds, bind)
    ensures var r := ParseOr(Tokens(d, Or(es), n) + rest);
      if NonEmptyAll(es) then Yields(r, rest, KleeneAny(d, es, row, bind), binds, row) else r.None?
    decreases es, 2
  {
    hide Tokens, Group;
    var ts := Tokens(d, Or(es), n) + rest;
    var m := n + |Leaves(es[0])|;
    var tail := GroupTail(d, es[1..], m, KwOr) + rest;
    BoundSplit(Leaves(es[0]), LeavesOf(es[1..]), n, binds, bind);
    ListTokens(d, es, n, rest);
    ParseGroup(d, es[0], n, tail, binds, row, bind);
    if NonEmpty(es[0]) {
      TermIsFactor(ts);
      var c := ParseAnd(ts).value.0;
      ParseOrTail(d, c, es[1..], m, rest, binds, row, bind);
      assert ParseOr(ts) == OrTail(c, tail);
    } else {
      NoFactorNoCondition(ts);
    }
  }

  // The parser, one production at a time.

  ghost predicate Follows(kw: Token, ts: seq<Token>) {
    ts != [] && ts[0] == kw
  }

  /** A factor not followed by AND is a whole boolean term. */
  lemma TermIsFactor(ts: seq<Token>)
    requires ParseFactor(ts).Some? && !Follows(KwAnd, ParseFactor(ts).value.1)
    ensures ParseAnd(ts) == ParseFactor(ts)
  {
    var (c, rest) := ParseFactor(ts).value;
    assert AndTail(c, rest) == Some((c, rest));
  }

  /** A term not followed by OR is a whole condition. */
  lemma ConditionIsTerm(ts: seq<Token>)
    requires ParseAnd(ts).Some? && !Follows(KwOr, ParseAnd(ts).value.1)
    ensures ParseOr(ts) == ParseAnd(ts)
  {
    var (c, rest) := ParseAnd(ts).value;
    assert OrTail(c, rest) == Some((c, rest));
  }

  /** What cannot start a factor cannot start a condition. */
  lemma NoFactorNoCondition(ts: seq<Token>)
    requires ParseFactor(ts).None?
    ensures ParseAnd(ts).None? && ParseOr(ts).None?
  {
    assert ParseAnd(ts).None?;
  }

  /** A parenthesised sub-clause is one boolean factor, whatever follows it. */
  lemma {:induction false} ParseGroup(
      d: Dialect, f: FilterExpr, n: nat, rest: seq<Token>, binds: seq<string>, row: Row, bind: Json -> string)
    requires BoundFrom(Leaves(f), n, binds, bind)
    ensures var r := ParsePrimary(Group(d, f, n) + rest);
      ParseFactor(Group(d, f, n) + rest) == r
      && if NonEmpty(f) then Yields(r, rest, Kleene(d, f, row, bind), binds, row) else r.None?
    decreases f, 3
  {
    hide Tokens, Kleene, Value, NonEmpty, Leaves;
    var ts := Group(d, f, n) + rest;
    assert ts[0] == Open && ts[1..] == Tokens(d, f, n) + ([Close] + rest);
    ParseClause(d, f, n, [Close] + rest, binds, row, bind);
    assert ([Close] + rest)[1..] == rest;
    hide ParseOr;
  }

  /** A tail is its keyword, its first group and a shorter tail. */
  lemma TailStep(d: Dialect, es: seq<FilterExpr>, n: nat, rest: seq<Token>, kw: Token)
    requires es != []
    ensures var ts := GroupTail(d, es, n, kw) + rest;
      && ts != [] && ts[0] == kw
      && ts[1..] == Group(d, es[0], n) + (GroupTail(d, es[1..], n + |Leaves(es[0])|, kw) + rest)
  {
    hide Group, Leaves;
  }

  lemma AndTailStep(left: Condition, ts: seq<Token>)
    requires ts != [] && ts[0] == KwAnd
    ensures AndTail(left, ts) ==
      var r := ParseFactor(ts[1..]); if r.None? then None else AndTail(Both(left, r.value.0), r.value.1)
  {
  }

  lemma OrTailStep(left: Condition, ts: seq<Token>)
    requires ts != [] && ts[0] == KwOr
    ensures OrTail(left, ts) ==
      var r := ParseAnd(ts[1..]); if r.None? then None else OrTail(Either(left, r.value.0), r.value.1)
  {
  }

  lemma {:induction false} ParseAndTail(
      d: Dialect, left: Condition, es: seq<FilterExpr>, n: nat, rest: seq<Token>, binds: seq<string>, row: Row,
      bind: Json -> string)
    requires Ends(rest) && BoundFrom(LeavesOf(es), n, binds, bind)
    ensures var r := AndTail(left, GroupTail(d, es, n, KwAnd) + rest);
      if NonEmptyAll(es) then Yields(r, rest, And3(Value(left, binds, row), KleeneAll(d, es, row, bind)), binds, row)
      else r.None?
    decreases es, 1
  {
    hide And3, Or3, Not3;
    if es == [] {
      assert GroupTail(d, es, n, KwAnd) + rest == rest;
      NeutralTruth(Value(left, binds, row));
    } else {
      var m := n + |Leaves(es[0])|;
      BoundSplit(Leaves(es[0]), LeavesOf(es[1..]), n, binds, bind);
      var ts := GroupTail(d, es, n, KwAnd) + rest;
      var tail := GroupTail(d, es[1..], m, KwAnd) + rest;
      TailStep(d, es, n, rest, KwAnd);
      AndTailStep(left, ts);
      hide Tokens, Group, GroupTail, Leaves, Kleene, NonEmpty, BoundFrom, AndTail, ParseFactor, ParsePrimary;
      ParseGroup(d, es[0], n, tail, binds, row, bind);
      if NonEmpty(es[0]) {
        var c := ParseFactor(ts[1..]).value.0;
        ParseAndTail(d, Both(left, c), es[1..], m, rest, binds, row, bind);
        And3Assoc(Value(left, binds, row), Kleene(d, es[0], row, bind), KleeneAll(d, es[1..], row, bind));
      }
    }
  }

  lemma {:induction false} ParseOrTail(
      d: Dialect, left: Condition, es: seq<FilterExpr>, n: nat, rest: seq<Token>, binds: seq<string>, row: Row,
      bind: Json -> string)
    requires Ends(rest) && BoundFrom(LeavesOf(es), n, binds, bind)
    ensures var r := OrTail(left, GroupTail(d, es, n, KwOr) + rest);
      if NonEmptyAll(es) then Yields(r, rest, Or3(Value(left, binds, row), KleeneAny(d, es, row, bind)), binds, row)
      else r.None?
    decreases es, 1
  {
    hide And3, Or3, Not3;
    if es == [] {
      assert GroupTail(d, es, n, KwOr) + rest == rest;
      NeutralTruth(Value(left, binds, row));
    } else {
      var m := n + |Leaves(es[0])|;
      BoundSplit(Leaves(es[0]), LeavesOf(es[1..]), n, binds, bind);
      var ts := GroupTail(d, es, n, KwOr) + rest;
      var tail := GroupTail(d, es[1..], m, KwOr) + rest;
      TailStep(d, es, n, rest, KwOr);
      OrTailStep(left, ts);
      hide Tokens, Group, GroupTail, Leaves, Kleene, NonEmpty, BoundFrom, OrTail, ParseAnd, ParseFactor, ParsePrimary;
      ParseGroup(d, es[0], n, tail, binds, row, bind);
      if NonEmpty(es[0]) {
        TermIsFactor(ts[1..]);
        var c := ParseAnd(ts[1..]).value.0;
        ParseOrTail(d, Either(left, c), es[1..], m, rest, binds, row, bind);
        Or3Assoc(Value(left, binds, row), Kleene(d, es[0], row, bind), KleeneAny(d, es[1..], row, bind));
      } else {
        NoFactorNoCondition(ts[1..]);
      }
    }
  }

  lemma NeutralTruth(a: Truth)
    ensures And3(a, True) == a && Or3(a, False) == a
  {
  }

  lemma And3Assoc(a: Truth, b: Truth, c: Truth)
    ensures And3(And3(a, b), c) == And3(a, And3(b, c))
  {
  }

  lemma Or3Assoc(a: Truth, b: Truth, c: Truth)
    ensures Or3(Or3(a, b), c) == Or3(a, Or3(b, c))
  {
  }

  // ----- The whole WHERE clause -----

  /** The literals of a filter, as bound after the namespace pattern. */
  function Binds(d: Dialect, prefix: string, f: FilterExpr, jsonText: JsonText): seq<string> {
    [prefix + "%"] + MapText(LeafValues(f), BindText(d, jsonText))
  }

  lemma BindsBound(d: Dialect, prefix: string, f: FilterExpr, jsonText: JsonText)
    ensures BoundFrom(Leaves(f), 2, Binds(d, prefix, f, jsonText), BindText(d, jsonText))
  {
  }

  lemma WhereWithBinds(d: Dialect, f: FilterExpr, binds: seq<string>, row: Row, bind: Json -> string)
    requires BoundFrom(Leaves(f), 2, binds, bind) && |binds| >= 1
    ensures Parse(WhereTokens(d, f)).Some? <==> NonEmpty(f)
    ensures NonEmpty(f) ==>
      Value(Parse(WhereTokens(d, f)).value, binds, row) == And3(row(Like, binds[0]), Kleene(d, f, row, bind))
  {
    hide Group;
    var ts := WhereTokens(d, f);
    ParseGroup(d, f, 2, [], binds, row, bind);
    assert Group(d, f, 2) + [] == Group(d, f, 2);
    assert ts[0] == Pred(Like, 1) && ts[1..][0] == KwAnd && ts[1..][1..] == Group(d, f, 2);
    var left := Test(Like, 1);
    assert ParsePrimary(ts) == Some((left, ts[1..]));
    assert ParseFactor(ts) == Some((left, ts[1..]));
    assert ParseAnd(ts) == AndTail(left, ts[1..]);
    if NonEmpty(f) {
      var c := ParseFactor(Group(d, f, 2)).value.0;
      assert AndTail(Both(left, c), []) == Some((Both(left, c), []));
      ConditionIsTerm(ts);
    } else {
      assert AndTail(left, ts[1..]).None?;
    }
  }

  /** The text of a search with spliceable fields is a search condition exactly when every AND and OR has an operand. */
  lemma WhereParsesIff(d: Dialect, prefix: string, f: FilterExpr, jsonText: JsonText)
    requires Spliceable(d, f)
    ensures ReadCondition(d, SearchWhere(d, prefix, Some(f), jsonText).0).Some? <==> NonEmpty(f)
  {
    hide WhereTokens, SearchWhere, Lex;
    WhereLexesIff(d, prefix, f, jsonText);
    BindsBound(d, prefix, f, jsonText);
    WhereWithBinds(d, f, Binds(d, prefix, f, jsonText), (_, _) => Unknown, BindText(d, jsonText));
  }

  /**
   * What the text of a search means once lexed, parsed with SQL precedence and evaluated in
   * three-valued logic: the namespace test and the Kleene value of the filter, each comparison
   * answered for its own literal; no row outside the namespace is selected. `WhereLexesIff` says
   * which fields let the text be read this way.
   */
  lemma WhereMeaning(d: Dialect, prefix: string, f: FilterExpr, jsonText: JsonText, row: Row)
    requires NonEmpty(f) && Spliceable(d, f)
    ensures var (where, binds) := SearchWhere(d, prefix, Some(f), jsonText);
      var condition := ReadCondition(d, where);
      && condition.Some?
      && Value(condition.value, binds, row)
           == And3(row(Like, prefix + "%"), Kleene(d, f, row, BindText(d, jsonText)))
      && (Value(condition.value, binds, row) == True ==> row(Like, prefix + "%") == True)
  {
    hide WhereTokens, Lex, FilterToSql;
    WhereLexesIff(d, prefix, f, jsonText);
    ParamsAreLiterals(d, f);
    BindsBound(d, prefix, f, jsonText);
    WhereWithBinds(d, f, Binds(d, prefix, f, jsonText), row, BindText(d, jsonText));
  }

  /** Without a filter the search is the namespace test alone. */
  lemma UnfilteredMeaning(d: Dialect, prefix: string, jsonText: JsonText, row: Row)
    ensures var (where, binds) := SearchWhere(d, prefix, None, jsonText);
      var condition := ReadCondition(d, where);
      condition.Some? && Value(condition.value, binds, row) == row(Like, prefix + "%")
  {
    var ts := [Pred(Like, 1)];
    assert ts[1..] == [];
    TextOne(d, d.Postgres?, ts[0]);
    RawIsSafeIff(d, ts);
    LexPrinted(d, ts, 1);
    LikeText(d);
    hide Lex, TextOf, SafeTextOf;
    assert ParsePrimary(ts) == Some((Test(Like, 1), []));
    TermIsFactor(ts);
    ConditionIsTerm(ts);
  }

  lemma LikeText(d: Dialect)
    ensures Text(d, d.Postgres?, Pred(Like, 1)) == if d.Postgres? then "namespace LIKE $1" else "namespace LIKE ?"
  {
    assert Decimal(1) == "1";
    assert "namespace LIKE " + "?" == "namespace LIKE ?";
    assert "$" + "1" == "$1";
    assert "namespace LIKE " + "$1" == "namespace LIKE $1";
  }

  /** What is bound: the prefix as a pattern, then the literal of each leaf in turn, as the dialect renders it. */
  lemma BoundAs(d: Dialect, prefix: string, f: FilterExpr, jsonText: JsonText)
    ensures var binds := SearchWhere(d, prefix, Some(f), jsonText).1;
      && |binds| == |Leaves(f)| + 1 && binds[0] == prefix + "%"
      && forall i :: 0 <= i < |Leaves(f)| ==>
           match (d, Leaves(f)[i].value)
           case (Sqlite, Bool(b)) => binds[i + 1] == if b then "1" else "0"
           case (Sqlite, Str(s)) => binds[i + 1] == s
           case (_, v) => binds[i + 1] == jsonText(v)
  {
    ParamsAreLiterals(d, f);
    hide FilterToSql, Leaves;
  }

  // ----- Against the in-memory evaluator -----

  /** How the row answers a leaf for its own literal. */
  function RowAnswer(d: Dialect, l: FilterExpr, row: Row, bind: Json -> string): Truth
    requires l.Leaf?
  {
    row(Compare(l.op, PathText(d, l.field)), bind(l.value))
  }

  ghost predicate AnswerAgrees(answer: Truth, l: FilterExpr, value: Json)
    requires l.Leaf?
  {
    answer == Unknown || answer == Known(EvaluateLeaf(l.op, l.field, l.value, value))
  }

  /** The row answers every comparison of the filter as the evaluator does, or with NULL. */
  ghost predicate RowAgrees(
      d: Dialect, leaves: seq<FilterExpr>, value: Json, row: Row, bind: Json -> string) {
    forall l :: l in leaves ==> l.Leaf? && AnswerAgrees(RowAnswer(d, l, row, bind), l, value)
  }

  function Known(b: bool): Truth {
    if b then True else False
  }

  /** A definite Kleene value survives any reading of the NULLs. */
  lemma {:induction false} KleeneSound(d: Dialect, f: FilterExpr, value: Json, row: Row, bind: Json -> string)
    requires RowAgrees(d, Leaves(f), value, row, bind)
    ensures Kleene(d, f, row, bind) == Unknown || Kleene(d, f, row, bind) == Known(Evaluate(f, value))
    decreases f, 1
  {
    match f
    case Leaf(_, _, _) => assert f in Leaves(f);
    case Not(e) => KleeneSound(d, e, value, row, bind);
    case And(es) => KleeneAllSound(d, es, value, row, bind);
    case Or(es) => KleeneAnySound(d, es, value, row, bind);
  }

  lemma {:induction false} KleeneAllSound(
      d: Dialect, es: seq<FilterExpr>, value: Json, row: Row, bind: Json -> string)
    requires RowAgrees(d, LeavesOf(es), value, row, bind)
    ensures KleeneAll(d, es, row, bind) == Unknown || KleeneAll(d, es, row, bind) == Known(EvaluateAll(es, value))
    decreases es, 0
  {
    if es != [] {
      KleeneSound(d, es[0], value, row, bind);
      KleeneAllSound(d, es[1..], value, row, bind);
    }
  }

  lemma {:induction false} KleeneAnySound(
      d: Dialect, es: seq<FilterExpr>, value: Json, row: Row, bind: Json -> string)
    requires RowAgrees(d, LeavesOf(es), value, row, bind)
    ensures KleeneAny(d, es, row, bind) == Unknown || KleeneAny(d, es, row, bind) == Known(EvaluateAny(es, value))
    decreases es, 0
  {
    if es != [] {
      KleeneSound(d, es[0], value, row, bind);
      KleeneAnySound(d, es[1..], value, row, bind);
    }
  }

  /** No comparison of the filter is NULL. */
  ghost predicate AllAnswered(d: Dialect, leaves: seq<FilterExpr>, row: Row, bind: Json -> string) {
    forall l :: l in leaves ==> l.Leaf? && RowAnswer(d, l, row, bind) != Unknown
  }

  lemma {:induction false} KleeneDefinite(d: Dialect, f: FilterExpr, row: Row, bind: Json -> string)
    requires AllAnswered(d, Leaves(f), row, bind)
    ensures Kleene(d, f, row, bind) != Unknown
    decreases f, 1
  {
    match f
    case Leaf(_, _, _) => assert f in Leaves(f);
    case Not(e) => KleeneDefinite(d, e, row, bind);
    case And(es) => KleeneListDefinite(d, es, row, bind);
    case Or(es) => KleeneListDefinite(d, es, row, bind);
  }

  lemma {:induction false} KleeneListDefinite(d: Dialect, es: seq<FilterExpr>, row: Row, bind: Json -> string)
    requires AllAnswered(d, LeavesOf(es), row, bind)
    ensures KleeneAll(d, es, row, bind) != Unknown && KleeneAny(d, es, row, bind) != Unknown
    decreases es, 0
  {
    if es != [] {
      KleeneDefinite(d, es[0], row, bind);
      KleeneListDefinite(d, es[1..], row, bind);
    }
  }

  /** The database never selects a row that the evaluator rejects, and misses one only over a NULL comparison. */
  lemma SelectionVersusEvaluator(d: Dialect, f: FilterExpr, value: Json, row: Row, bind: Json -> string)
    requires RowAgrees(d, Leaves(f), value, row, bind)
    ensures Kleene(d, f, row, bind) == True ==> Evaluate(f, value)
    ensures Evaluate(f, value) && Kleene(d, f, row, bind) != True ==>
      exists l :: l in Leaves(f) && RowAnswer(d, l, row, bind) == Unknown
  {
    KleeneSound(d, f, value, row, bind);
    if AllAnswered(d, Leaves(f), row, bind) {
      KleeneDefinite(d, f, row, bind);
    }
  }

  // ----- NULL over a missing path or a JSON null -----

  /** There is nothing at the path, or a JSON null. */
  predicate Absent(value: Json, field: string) {
    IsNull(GetField(value, field))
  }

  /** Extraction gives NULL: nothing is found, or a JSON null. */
  predicate IsNull(found: Option<Json>) {
    found.None? || found.value.Null?
  }

  /** The comparison of what the database finds by reading the path literal. */
  ghost function LeafAnswer(d: Dialect, l: FilterExpr, value: Json): Truth
    requires l.Leaf?
  {
    var found := Found(d, PathText(d, l.field), value);
    if IsNull(found) then Unknown else Known(Compares(l.op, found, l.value))
  }

  /** The row compares what its path literals find in the stored value, and says NULL where they find nothing. */
  ghost predicate ComparesFound(
      d: Dialect, leaves: seq<FilterExpr>, value: Json, row: Row, bind: Json -> string) {
    forall l :: l in leaves ==> l.Leaf? && RowAnswer(d, l, row, bind) == LeafAnswer(d, l, value)
  }

  ghost predicate AllAddressed(d: Dialect, leaves: seq<FilterExpr>) {
    forall l :: l in leaves ==> l.Leaf? && Addressed(d, l.field)
  }

  /** For an addressed field that is the evaluator's own comparison, or NULL over a missing path or a JSON null. */
  lemma AddressedAnswer(d: Dialect, l: FilterExpr, value: Json)
    requires l.Leaf? && Addressed(d, l.field)
    ensures LeafAnswer(d, l, value) ==
      if Absent(value, l.field) then Unknown else Known(EvaluateLeaf(l.op, l.field, l.value, value))
  {
    hide Addressed, Found, PathText, GetField;
    FoundIff(d, l.field);
    assert Found(d, PathText(d, l.field), value) == GetField(value, l.field);
  }

  /** A NULL comparison has the evaluator's value `false`, or under an odd number of `$not` the value `true`. */
  predicate PolarLeaf(op: CmpOp, literal: Json, positive: bool) {
    if positive then op != Ne && !(op == Eq && literal.Null?) else op == Ne && !literal.Null?
  }

  predicate Polar(f: FilterExpr, positive: bool)
    decreases f, 1
  {
    match f
    case Leaf(op, _, literal) => PolarLeaf(op, literal, positive)
    case And(es) => PolarAll(es, positive)
    case Or(es) => PolarAll(es, positive)
    case Not(e) => Polar(e, !positive)
  }

  predicate PolarAll(es: seq<FilterExpr>, positive: bool)
    decreases es, 0
  {
    es == [] || (Polar(es[0], positive) && PolarAll(es[1..], positive))
  }

  /** The answer selects what the evaluator selects, or under a `$not` rejects what it rejects. */
  predicate SidesAgree(answer: Truth, evaluated: bool, positive: bool) {
    if positive then answer == True <==> evaluated else answer == False <==> !evaluated
  }

  /**
   * With `$eq` and range comparisons under an even number of `$not`, `$ne` under an odd number and no
   * null literal for either, database and evaluator select the same rows, whatever is missing or null.
   */
  lemma {:induction false} PolarFiltersAgree(
      d: Dialect, f: FilterExpr, positive: bool, value: Json, row: Row, bind: Json -> string)
    requires Polar(f, positive) && AllAddressed(d, Leaves(f)) && ComparesFound(d, Leaves(f), value, row, bind)
    ensures SidesAgree(Kleene(d, f, row, bind), Evaluate(f, value), positive)
    decreases f, 1
  {
    hide LeafAnswer, Addressed;
    match f
    case Leaf(_, _, _) =>
      assert f in Leaves(f);
      AddressedAnswer(d, f, value);
    case And(es) => PolarListsAgree(d, es, positive, value, row, bind);
    case Or(es) => PolarListsAgree(d, es, positive, value, row, bind);
    case Not(e) => PolarFiltersAgree(d, e, !positive, value, row, bind);
  }

  lemma {:induction false} PolarListsAgree(
      d: Dialect, es: seq<FilterExpr>, positive: bool, value: Json, row: Row, bind: Json -> string)
    requires PolarAll(es, positive) && AllAddressed(d, LeavesOf(es)) && ComparesFound(d, LeavesOf(es), value, row, bind)
    ensures SidesAgree(KleeneAll(d, es, row, bind), EvaluateAll(es, value), positive)
    ensures SidesAgree(KleeneAny(d, es, row, bind), EvaluateAny(es, value), positive)
    decreases es, 0
  {
    hide LeafAnswer, Addressed, SidesAgree, And3, Or3;
    if es == [] {
      SidesOfNone(positive);
    } else {
      PolarFiltersAgree(d, es[0], positive, value, row, bind);
      PolarListsAgree(d, es[1..], positive, value, row, bind);
      var head, one := Kleene(d, es[0], row, bind), Evaluate(es[0], value);
      SidesOfBoth(head, one, KleeneAll(d, es[1..], row, bind), EvaluateAll(es[1..], value), positive);
      SidesOfBoth(head, one, KleeneAny(d, es[1..], row, bind), EvaluateAny(es[1..], value), positive);
    }
  }

  lemma SidesOfNone(positive: bool)
    ensures SidesAgree(True, true, positive) && SidesAgree(False, false, positive)
  {
  }

  lemma SidesOfBoth(x: Truth, a: bool, y: Truth, b: bool, positive: bool)
    requires SidesAgree(x, a, positive) && SidesAgree(y, b, positive)
    ensures SidesAgree(And3(x, y), a && b, positive) && SidesAgree(Or3(x, y), a || b, positive)
  {
  }

  /**
   * From the text that is sent to the rows that come back: with spliceable, addressed fields, an operand for
   * every connective and that polarity, a search selects exactly the matching values of the namespace.
   */
  lemma SearchSelectsMatches(d: Dialect, prefix: string, f: FilterExpr, jsonText: JsonText, value: Json, row: Row)
    requires NonEmpty(f) && Spliceable(d, f) && Polar(f, true) && AllAddressed(d, Leaves(f))
    requires ComparesFound(d, Leaves(f), value, row, BindText(d, jsonText))
    ensures var (where, binds) := SearchWhere(d, prefix, Some(f), jsonText);
      var condition := ReadCondition(d, where);
      && condition.Some?
      && (Value(condition.value, binds, row) == True <==> row(Like, prefix + "%") == True && Evaluate(f, value))
  {
    hide SearchWhere, ReadCondition, Spliceable, Polar, Leaves, ComparesFound, AllAddressed, Value, Kleene, Evaluate;
    WhereMeaning(d, prefix, f, jsonText, row);
    PolarFiltersAgree(d, f, true, value, row, BindText(d, jsonText));
  }

  /** A comparison, plain or negated. */
  function Signed(l: FilterExpr, positive: bool): FilterExpr {
    if positive then l else Not(l)
  }

  /** Both sides select by this filter alike, over every value and every row with NULL where nothing is found. */
  ghost predicate AlwaysAgree(d: Dialect, f: FilterExpr, bind: Json -> string) {
    forall value, row | ComparesFound(d, Leaves(f), value, row, bind) ::
      Kleene(d, f, row, bind) == True <==> Evaluate(f, value)
  }

  /** What a comparison of the wrong polarity must miss: a JSON null for a null literal, else nothing at all. */
  function MissedBy(op: CmpOp, literal: Json, positive: bool): Option<Json> {
    if positive == (op == Eq) && literal.Null? then Some(Json.Null) else None
  }

  lemma WrongPolarity(op: CmpOp, literal: Json, positive: bool)
    requires !PolarLeaf(op, literal, positive)
    ensures Compares(op, MissedBy(op, literal, positive), literal) == positive
  {
  }

  /** A value in which that is found. */
  lemma Holding(field: string, found: Option<Json>) returns (value: Json)
    requires IsNull(found)
    ensures GetField(value, field) == found
  {
    value := if found.Some? then Nest(Namespaces.Split(field, '.'), Json.Null) else Object(map[]);
    WalkNest(Namespaces.Split(field, '.'), Json.Null);
  }

  /** For one comparison, plain or negated, the polarity check is exact. */
  lemma PolarLeafIff(d: Dialect, op: CmpOp, field: string, literal: Json, positive: bool, bind: Json -> string)
    requires Addressed(d, field)
    ensures AlwaysAgree(d, Signed(Leaf(op, field, literal), positive), bind) <==> PolarLeaf(op, literal, positive)
  {
    hide LeafAnswer, Addressed, GetField, Compares, MissedBy;
    var l := Leaf(op, field, literal);
    var f := Signed(l, positive);
    assert Leaves(f) == [l];
    if PolarLeaf(op, literal, positive) {
      forall value, row | ComparesFound(d, Leaves(f), value, row, bind)
        ensures Kleene(d, f, row, bind) == True <==> Evaluate(f, value)
      {
        PolarFiltersAgree(d, f, true, value, row, bind);
      }
    } else {
      MissedIsNull(op, literal, positive);
      var value := Holding(field, MissedBy(op, literal, positive));
      WrongPolarity(op, literal, positive);
      AddressedAnswer(d, l, value);
      var row: Row := (_, _) => LeafAnswer(d, l, value);
      assert ComparesFound(d, Leaves(f), value, row, bind);
      assert Kleene(d, f, row, bind) == Unknown;
      assert Evaluate(l, value) == positive;
    }
  }

  lemma MissedIsNull(op: CmpOp, literal: Json, positive: bool)
    ensures IsNull(MissedBy(op, literal, positive))
  {
  }

  /** When every path holds something other than null, nothing is NULL and the clause is the filter. */
  lemma PresentPathsAgree(d: Dialect, f: FilterExpr, value: Json, row: Row, bind: Json -> string)
    requires AllAddressed(d, Leaves(f)) && ComparesFound(d, Leaves(f), value, row, bind)
    requires forall l :: l in Leaves(f) ==> !Absent(value, l.field)
    ensures Kleene(d, f, row, bind) == Known(Evaluate(f, value))
  {
    hide LeafAnswer, Addressed, Kleene, Evaluate, Leaves, EvaluateLeaf, Absent;
    forall l | l in Leaves(f) ensures RowAnswer(d, l, row, bind) == Known(EvaluateLeaf(l.op, l.field, l.value, value)) {
      AddressedAnswer(d, l, value);
    }
    KleeneSound(d, f, value, row, bind);
    KleeneDefinite(d, f, row, bind);
  }

  /**
   * Over a missing path or a null, `$ne` and a negated `$eq` hold in memory and select nothing in SQL;
   * over a null, so does `$eq` with a null literal.
   */
  lemma MissingPathDiffers(
      d: Dialect, field: string, literal: Json, value: Json, row: Row, bind: Json -> string)
    requires Addressed(d, field) && Absent(value, field)
    requires ComparesFound(d, [Leaf(Ne, field, literal), Leaf(Eq, field, literal)], value, row, bind)
    ensures var ne, notEq := Leaf(Ne, field, literal), Not(Leaf(Eq, field, literal));
      && Kleene(d, ne, row, bind) == Unknown && Kleene(d, notEq, row, bind) == Unknown
      && (GetField(value, field) != Some(literal) ==> Evaluate(ne, value) && Evaluate(notEq, value))
    ensures var eq := Leaf(Eq, field, literal);
      && Kleene(d, eq, row, bind) == Unknown
      && (GetField(value, field) == Some(literal) ==> Evaluate(eq, value))
  {
    assert Leaf(Ne, field, literal) in [Leaf(Ne, field, literal), Leaf(Eq, field, literal)];
    assert Leaf(Eq, field, literal) in [Leaf(Ne, field, literal), Leaf(Eq, field, literal)];
    hide LeafAnswer, Addressed;
    AddressedAnswer(d, Leaf(Ne, field, literal), value);
    AddressedAnswer(d, Leaf(Eq, field, literal), value);
  }
}
