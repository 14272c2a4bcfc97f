/** The emitted clauses as token streams: parsing, meaning, and placeholder alignment. */
module SqlMeaning {
  import opened Wrappers
  import opened Seqs
  import opened Json
  import opened Namespaces
  import opened Filters
  import opened SqlConditions
  import opened SqlCompiler

  // ----- The tokens of a clause -----

  /** The clause of `f` with placeholders numbered from `n`. */
  function Tokens(d: Dialect, f: FilterExpr, n: nat): seq<Token>
    decreases f, 2
  {
    match f
    case Leaf(op, field, _) => [Pred(Compare(op, PathText(d, field)), n)]
    case And(es) => if es == [] then [] else Group(d, es[0], n) + GroupTail(d, es[1..], n + |Leaves(es[0])|, KwAnd)
    case Or(es) => if es == [] then [] else Group(d, es[0], n) + GroupTail(d, es[1..], n + |Leaves(es[0])|, KwOr)
    case Not(e) => [KwNot] + Group(d, e, n)
  }

  function Group(d: Dialect, f: FilterExpr, n: nat): seq<Token>
    decreases f, 3
  {
    [Open] + Tokens(d, f, n) + [Close]
  }

  function GroupTail(d: Dialect, es: seq<FilterExpr>, n: nat, kw: Token): seq<Token>
    decreases es, 0
  {
    if es == [] then [] else [kw] + Group(d, es[0], n) + GroupTail(d, es[1..], n + |Leaves(es[0])|, kw)
  }

  /** The whole WHERE condition: the namespace test, AND, the clause in parentheses. */
  function WhereTokens(d: Dialect, f: FilterExpr): seq<Token> {
    [Pred(Like, 1), KwAnd] + Group(d, f, 2)
  }

  function Placeholder(d: Dialect, numbered: bool, k: nat): string {
    if numbered then "$" + Decimal(k) else "?"
  }

  /** How a token reads as text. */
  function Text(d: Dialect, numbered: bool, t: Token): string {
    match t
    case Open => "("
    case Close => ")"
    case KwAnd => " AND "
    case KwOr => " OR "
    case KwNot => "NOT "
    case Pred(Like, k) => "namespace LIKE " + Placeholder(d, numbered, k)
    case Pred(Compare(op, path), k) => Head(d, op, path) + Placeholder(d, numbered, k) + Tail(d, op)
  }

  function TextOf(d: Dialect, numbered: bool, ts: seq<Token>): string {
    if ts == [] then "" else Text(d, numbered, ts[0]) + TextOf(d, numbered, ts[1..])
  }

  lemma {:induction false} TextConcat(d: Dialect, numbered: bool, a: seq<Token>, b: seq<Token>)
    ensures TextOf(d, numbered, a + b) == TextOf(d, numbered, a) + TextOf(d, numbered, b)
  {
    if a == [] {
      assert a + b == b;
    } else {
      assert (a + b)[1..] == a[1..] + b;
      TextConcat(d, numbered, a[1..], b);
    }
  }

  lemma TextOne(d: Dialect, numbered: bool, t: Token)
    ensures TextOf(d, numbered, [t]) == Text(d, numbered, t)
  {
    assert [t][1..] == [];
    assert Text(d, numbered, t) + "" == Text(d, numbered, t);
  }

  lemma TextGroup(d: Dialect, numbered: bool, f: FilterExpr, n: nat)
    ensures TextOf(d, numbered, Group(d, f, n)) == "(" + TextOf(d, numbered, Tokens(d, f, n)) + ")"
  {
    TextConcat(d, numbered, [Open] + Tokens(d, f, n), [Close]);
    TextConcat(d, numbered, [Open], Tokens(d, f, n));
    TextOne(d, numbered, Open);
    TextOne(d, numbered, Close);
  }

  function LeafValues(f: FilterExpr): (r: seq<Json>)
    ensures |r| == |Leaves(f)|
  {
    seq(|Leaves(f)|, i requires 0 <= i < |Leaves(f)| => Leaves(f)[i].value)
  }

  function LeafValuesOf(es: seq<FilterExpr>): (r: seq<Json>)
    ensures |r| == |LeavesOf(es)|
  {
    seq(|LeavesOf(es)|, i requires 0 <= i < |LeavesOf(es)| => LeavesOf(es)[i].value)
  }

  /** The parameters are the literals, left to right. */
  lemma {:induction false} ParamsAreLiterals(d: Dialect, f: FilterExpr)
    ensures FilterToSql(d, f).1 == LeafValues(f)
    decreases f, 1
  {
    hide Head, Tail, PathText;
    match f
    case Leaf(_, _, _) =>
    case Not(e) => ParamsAreLiterals(d, e);
    case And(es) => ListParamsAreLiterals(d, es);
    case Or(es) => ListParamsAreLiterals(d, es);
  }

  lemma {:induction false} ListParamsAreLiterals(d: Dialect, es: seq<FilterExpr>)
    ensures Params(d, es) == LeafValuesOf(es)
    decreases es, 0
  {
    hide FilterToSql, LeafValues, LeafValuesOf;
    if es == [] {
      assert |LeafValuesOf(es)| == 0;
    } else {
      ParamsAreLiterals(d, es[0]);
      ListParamsAreLiterals(d, es[1..]);
      LeafValuesCons(es);
    }
  }

  lemma LeafValuesCons(es: seq<FilterExpr>)
    requires es != []
    ensures LeafValuesOf(es) == LeafValues(es[0]) + LeafValuesOf(es[1..])
  {
    hide Leaves;
  }

  lemma KeywordText(d: Dialect)
    ensures Text(d, false, KwAnd) == " AND " && Text(d, false, KwOr) == " OR "
  {
  }

  lemma LeafIsTokens(d: Dialect, op: CmpOp, field: string, value: Json, n: nat)
    ensures FilterToSql(d, Leaf(op, field, value)).0 == TextOf(d, false, Tokens(d, Leaf(op, field, value), n))
  {
    hide Head, Tail, PathText;
    TextOne(d, false, Pred(Compare(op, PathText(d, field)), n));
  }

  lemma NotOpen(clause: string)
    ensures "NOT (" + clause + ")" == "NOT " + ("(" + clause + ")")
  {
    assert "NOT (" == "NOT " + "(";
  }

  lemma NotIsClause(d: Dialect, e: FilterExpr)
    ensures FilterToSql(d, Not(e)).0 == "NOT " + Clause(d, e)
  {
    var clause := FilterToSql(d, e).0;
    assert FilterToSql(d, Not(e)).0 == "NOT (" + clause + ")";
    hide FilterToSql;
    NotOpen(clause);
  }

  /** The emitted text is the token stream read aloud. */
  lemma {:induction false} ClauseIsTokens(d: Dialect, f: FilterExpr, n: nat)
    ensures FilterToSql(d, f).0 == TextOf(d, false, Tokens(d, f, n))
    decreases f, 1
  {
    hide Head, Tail, Text, Group, Clause, PathText;
    match f
    case Leaf(op, field, value) =>
      LeafIsTokens(d, op, field, value, n);
    case Not(e) =>
      GroupIsClause(d, e, n);
      NegatedText(d, e, n);
      NotIsClause(d, e);
      hide FilterToSql, TextOf, Tokens;
    case And(es) =>
      KeywordText(d);
      if es != [] {
        ListIsTokens(d, es, n, KwAnd);
        hide Join, Clauses, TextOf, GroupTail;
      }
    case Or(es) =>
      KeywordText(d);
      if es != [] {
        ListIsTokens(d, es, n, KwOr);
        hide Join, Clauses, TextOf, GroupTail;
      }
  }

  lemma NegatedText(d: Dialect, e: FilterExpr, n: nat)
    ensures TextOf(d, false, Tokens(d, Not(e), n)) == "NOT " + TextOf(d, false, Group(d, e, n))
  {
    TextConcat(d, false, [KwNot], Group(d, e, n));
    TextOne(d, false, KwNot);
  }

  /** A sub-clause in its parentheses. */
  function Clause(d: Dialect, f: FilterExpr): string {
    "(" + FilterToSql(d, f).0 + ")"
  }

  lemma {:induction false} GroupIsClause(d: Dialect, f: FilterExpr, n: nat)
    ensures TextOf(d, false, Group(d, f, n)) == Clause(d, f)
    decreases f, 2
  {
    ClauseIsTokens(d, f, n);
    TextGroup(d, false, f, n);
  }

  lemma {:induction false} ListIsTokens(d: Dialect, es: seq<FilterExpr>, n: nat, kw: Token)
    requires es != []
    ensures Join(Clauses(d, es), Text(d, false, kw))
         == TextOf(d, false, Group(d, es[0], n) + GroupTail(d, es[1..], n + |Leaves(es[0])|, kw))
    decreases es, 1
  {
    hide Head, Tail, FilterToSql, Text, Group;
    var m := n + |Leaves(es[0])|;
    GroupIsClause(d, es[0], n);
    TailIsTokens(d, es[1..], m, kw);
    TextConcat(d, false, Group(d, es[0], n), GroupTail(d, es[1..], m, kw));
    assert Clauses(d, es) == [Clause(d, es[0])] + Clauses(d, es[1..]);
    assert Clauses(d, es)[1..] == Clauses(d, es[1..]);
  }

  lemma {:induction false} TailIsTokens(d: Dialect, es: seq<FilterExpr>, n: nat, kw: Token)
    ensures JoinTail(Clauses(d, es), Text(d, false, kw)) == TextOf(d, false, GroupTail(d, es, n, kw))
    decreases es, 0
  {
    hide Head, Tail, FilterToSql, Text, Group;
    if es != [] {
      var m := n + |Leaves(es[0])|;
      GroupIsClause(d, es[0], n);
      TailIsTokens(d, es[1..], m, kw);
      TextConcat(d, false, [kw] + Group(d, es[0], n), GroupTail(d, es[1..], m, kw));
      TextConcat(d, false, [kw], Group(d, es[0], n));
      TextOne(d, false, kw);
      assert Clauses(d, es) == [Clause(d, es[0])] + Clauses(d, es[1..]);
      assert Clauses(d, es)[1..] == Clauses(d, es[1..]);
    }
  }

  // ----- Placeholder alignment -----

  function PredsIn(ts: seq<Token>): (r: seq<Token>)
    ensures forall t :: t in r ==> t.Pred?
  {
    if ts == [] then [] else (if ts[0].Pred? then [ts[0]] else []) + PredsIn(ts[1..])
  }

  lemma {:induction false} PredsConcat(a: seq<Token>, b: seq<Token>)
    ensures PredsIn(a + b) == PredsIn(a) + PredsIn(b)
  {
    if a == [] {
      assert a + b == b;
    } else {
      assert (a + b)[1..] == a[1..] + b;
      PredsConcat(a[1..], b);
    }
  }

  /** The tests a sequence of leaves makes, with consecutive parameter numbers. */
  function TestsOf(d: Dialect, leaves: seq<FilterExpr>, n: nat): (r: seq<Token>)
    requires forall l :: l in leaves ==> l.Leaf?
    ensures |r| == |leaves|
  {
    seq(|leaves|, i requires 0 <= i < |leaves| => Pred(Compare(leaves[i].op, PathText(d, leaves[i].field)), n + i))
  }

  lemma TestsConcat(d: Dialect, a: seq<FilterExpr>, b: seq<FilterExpr>, n: nat)
    requires forall l :: l in a + b ==> l.Leaf?
    requires forall l :: l in a ==> l.Leaf?
    requires forall l :: l in b ==> l.Leaf?
    ensures TestsOf(d, a + b, n) == TestsOf(d, a, n) + TestsOf(d, b, n + |a|)
  {
    hide PathText;
    var whole, first := TestsOf(d, a + b, n), TestsOf(d, a, n);
    forall i | 0 <= i < |whole| ensures whole[i] == (first + TestsOf(d, b, n + |a|))[i] {
    }
  }

  /** The tests of a clause are the leaves of the filter in order, parameter `n + i` going to leaf `i`. */
  lemma {:induction false} TestsAreLeaves(d: Dialect, f: FilterExpr, n: nat)
    ensures PredsIn(Tokens(d, f, n)) == TestsOf(d, Leaves(f), n)
    decreases f, 2
  {
    hide PathText, Group, TestsOf, PredsIn;
    match f
    case Leaf(_, _, _) =>
      LeafTests(d, f, n);
    case Not(e) =>
      GroupTests(d, e, n);
      PredsConcat([KwNot], Group(d, e, n));
      KeywordTests(KwNot);
    case And(es) =>
      if es == [] { NoTests(d, n); } else { FirstAndTail(d, es, n, KwAnd); }
    case Or(es) =>
      if es == [] { NoTests(d, n); } else { FirstAndTail(d, es, n, KwOr); }
  }

  lemma LeafTests(d: Dialect, l: FilterExpr, n: nat)
    requires l.Leaf?
    ensures PredsIn(Tokens(d, l, n)) == TestsOf(d, Leaves(l), n)
  {
    hide PathText;
    assert Tokens(d, l, n)[1..] == [];
    assert PredsIn(Tokens(d, l, n)) == [Pred(Compare(l.op, PathText(d, l.field)), n)];
  }

  lemma {:induction false} GroupTests(d: Dialect, f: FilterExpr, n: nat)
    ensures PredsIn(Group(d, f, n)) == TestsOf(d, Leaves(f), n)
    decreases f, 3
  {
    hide Tokens, Leaves, TestsOf, PredsIn;
    TestsAreLeaves(d, f, n);
    PredsConcat([Open] + Tokens(d, f, n), [Close]);
    PredsConcat([Open], Tokens(d, f, n));
    KeywordTests(Open);
    KeywordTests(Close);
  }

  lemma {:induction false} FirstAndTail(d: Dialect, es: seq<FilterExpr>, n: nat, kw: Token)
    requires es != [] && !kw.Pred?
    ensures PredsIn(Group(d, es[0], n) + GroupTail(d, es[1..], n + |Leaves(es[0])|, kw)) == TestsOf(d, LeavesOf(es), n)
    decreases es, 1
  {
    hide Group, TestsOf;
    var m := n + |Leaves(es[0])|;
    GroupTests(d, es[0], n);
    TailTests(d, es[1..], m, kw);
    PredsConcat(Group(d, es[0], n), GroupTail(d, es[1..], m, kw));
    TestsConcat(d, Leaves(es[0]), LeavesOf(es[1..]), n);
  }

  lemma KeywordTests(kw: Token)
    requires !kw.Pred?
    ensures PredsIn([kw]) == []
  {
    assert [kw][1..] == [];
  }

  /** Keywords make no tests. */
  lemma {:induction false} TestsAfterKeyword(kw: Token, a: seq<Token>, b: seq<Token>)
    requires !kw.Pred?
    ensures PredsIn([kw] + a + b) == PredsIn(a) + PredsIn(b)
  {
    hide PredsIn;
    PredsConcat([kw] + a, b);
    PredsConcat([kw], a);
    KeywordTests(kw);
    assert [] + PredsIn(a) == PredsIn(a);
  }

  lemma {:induction false} TailTests(d: Dialect, es: seq<FilterExpr>, n: nat, kw: Token)
    requires !kw.Pred?
    ensures PredsIn(GroupTail(d, es, n, kw)) == TestsOf(d, LeavesOf(es), n)
    decreases es, 0
  {
    hide Group, TestsOf, PredsIn;
    if es == [] {
      NoTests(d, n);
    } else {
      var m := n + |Leaves(es[0])|;
      GroupTests(d, es[0], n);
      TailTests(d, es[1..], m, kw);
      TestsAfterKeyword(kw, Group(d, es[0], n), GroupTail(d, es[1..], m, kw));
      TestsConcat(d, Leaves(es[0]), LeavesOf(es[1..]), n);
    }
  }

  lemma NoTests(d: Dialect, n: nat)
    ensures PredsIn([]) == TestsOf(d, [], n)
  {
  }

  ghost predicate MarkFree(f: FilterExpr) {
    forall l :: l in Leaves(f) ==> '?' !in l.field
  }

  /** Re-joining a split path replaces its dots. */
  lemma {:induction false} JoinSplit(s: string)
    requires s != ""
    ensures Join(Split(s, '.'), ",") == (if s[0] == '.' then "," else [s[0]]) + Join(Split(s[1..], '.'), ",")
  {
    var parts, rest := Split(s, '.'), Split(s[1..], '.');
    if s[0] == '.' {
      assert parts[0] == "" && parts[1..] == rest;
      assert "," + rest[0] + JoinTail(rest[1..], ",") == "," + (rest[0] + JoinTail(rest[1..], ","));
    } else {
      assert parts[0] == [s[0]] + rest[0] && parts[1..] == rest[1..];
      assert [s[0]] + rest[0] + JoinTail(rest[1..], ",") == [s[0]] + (rest[0] + JoinTail(rest[1..], ","));
    }
  }

  lemma {:induction false} MarksInSplit(s: string)
    ensures Marks(Join(Split(s, '.'), ",")) == Marks(s)
  {
    hide Join;
    if s == "" {
      NoMarks(s);
      assert Split(s, '.') == [""];
      JoinOne("", ",");
    } else {
      var first := if s[0] == '.' then ',' else s[0];
      JoinSplit(s);
      MarksInSplit(s[1..]);
      MarksConcat([first], Join(Split(s[1..], '.'), ","));
      MarksConcat([s[0]], s[1..]);
      assert s == [s[0]] + s[1..];
    }
  }

  lemma MarksConcat(a: string, b: string)
    ensures Marks(a + b) == Marks(a) + Marks(b)
  {
    FilterConcat(a, b, IsMark());
  }

  lemma NoMarks(s: string)
    requires '?' !in s
    ensures Marks(s) == 0
  {
    RenumberPlain(s, 0);
  }

  lemma MarksAround(pre: string, mid: string, post: string)
    requires '?' !in pre && '?' !in post
    ensures Marks(pre + mid + post) == Marks(mid)
  {
    NoMarks(pre);
    NoMarks(post);
    MarksConcat(pre, mid);
    MarksConcat(pre + mid, post);
  }

  lemma OpTextPlain(op: CmpOp)
    ensures '?' !in OpText(op)
  {
  }

  lemma TailPlain(d: Dialect, op: CmpOp)
    ensures '?' !in Tail(d, op)
  {
  }

  lemma PathMarks(d: Dialect, field: string)
    ensures Marks(PathText(d, field)) == Marks(field)
  {
    hide Join, Split, Marks;
    match d
    case Sqlite =>
      MarksAround("$.", field, "");
      assert "$." + field + "" == "$." + field;
    case Postgres =>
      MarksInSplit(field);
      MarksAround("{", Join(Split(field, '.'), ","), "}");
  }

  lemma HeadMarks(d: Dialect, op: CmpOp, path: string)
    ensures Marks(Head(d, op, path)) == Marks(path)
  {
    OpTextPlain(op);
    var o := Ordered(op);
    FixedPlain(d, o);
    hide Marks, OpText, Front, Middle, Lead;
    var front, back := Front(d, o), "'" + Middle(d, o) + OpText(op) + Lead(o);
    assert Head(d, op, path) == front + path + back;
    MarksAround(front, path, back);
  }

  lemma FixedPlain(d: Dialect, ordered: bool)
    ensures '?' !in Front(d, ordered) && '?' !in Middle(d, ordered) && '?' !in Lead(ordered)
  {
  }

  /** A comparison holds its own mark and those of its field, nothing else. */
  lemma MarksInLeaf(d: Dialect, op: CmpOp, field: string)
    ensures Marks(Head(d, op, PathText(d, field))) == Marks(field) && '?' !in Tail(d, op)
    ensures Marks(Head(d, op, PathText(d, field)) + "?" + Tail(d, op)) == Marks(field) + 1
  {
    hide Head, Tail, PathText;
    PathMarks(d, field);
    HeadMarks(d, op, PathText(d, field));
    TailPlain(d, op);
    NoMarks(Tail(d, op));
    MarksConcat(Head(d, op, PathText(d, field)) + "?", Tail(d, op));
    MarksConcat(Head(d, op, PathText(d, field)), "?");
    assert Marks("?") == 1 by {
      assert "?"[1..] == "";
    }
  }

  ghost function FieldMarks(leaves: seq<FilterExpr>): nat
    requires forall l :: l in leaves ==> l.Leaf?
  {
    if leaves == [] then 0 else Marks(leaves[0].field) + FieldMarks(leaves[1..])
  }

  lemma MarksInTest(d: Dialect, op: CmpOp, field: string, n: nat)
    ensures Marks(Text(d, false, Pred(Compare(op, PathText(d, field)), n))) == Marks(field) + 1
  {
    hide Head, Tail, PathText;
    MarksInLeaf(d, op, field);
  }

  lemma MarksInKeyword(d: Dialect, numbered: bool, t: Token)
    requires !t.Pred?
    ensures '?' !in Text(d, numbered, t) && Marks(Text(d, numbered, t)) == 0
  {
    NoMarks(Text(d, numbered, t));
  }

  lemma TestsRest(d: Dialect, leaves: seq<FilterExpr>, n: nat)
    requires forall l :: l in leaves ==> l.Leaf?
    requires leaves != []
    ensures TestsOf(d, leaves, n)[0] == Pred(Compare(leaves[0].op, PathText(d, leaves[0].field)), n)
    ensures TestsOf(d, leaves, n)[1..] == TestsOf(d, leaves[1..], n + 1)
  {
    hide PathText;
  }

  /** The first token and the first leaf of a numbered stream. */
  lemma {:induction false} FirstTest(d: Dialect, ts: seq<Token>, leaves: seq<FilterExpr>, n: nat)
    requires forall l :: l in leaves ==> l.Leaf?
    requires ts != [] && PredsIn(ts) == TestsOf(d, leaves, n)
    ensures if ts[0].Pred?
      then leaves != [] && ts[0] == Pred(Compare(leaves[0].op, PathText(d, leaves[0].field)), n)
           && PredsIn(ts[1..]) == TestsOf(d, leaves[1..], n + 1)
      else PredsIn(ts[1..]) == TestsOf(d, leaves, n)
  {
    hide PathText;
    if ts[0].Pred? {
      assert PredsIn(ts) == [ts[0]] + PredsIn(ts[1..]);
      assert |TestsOf(d, leaves, n)| == |leaves|;
      TestsRest(d, leaves, n);
      hide TestsOf, PredsIn;
      assert TestsOf(d, leaves, n)[1..] == PredsIn(ts[1..]);
    }
  }

  /** The marks of any token text: one for each test, plus those inside field names. */
  lemma {:induction false} MarksInText(d: Dialect, ts: seq<Token>, leaves: seq<FilterExpr>, n: nat)
    requires forall l :: l in leaves ==> l.Leaf?
    requires PredsIn(ts) == TestsOf(d, leaves, n)
    ensures Marks(TextOf(d, false, ts)) == |leaves| + FieldMarks(leaves)
    decreases |ts|
  {
    hide Text, Marks, TestsOf;
    if ts == [] {
      NoMarks("");
      assert |TestsOf(d, leaves, n)| == 0;
    } else {
      MarksConcat(Text(d, false, ts[0]), TextOf(d, false, ts[1..]));
      FirstTest(d, ts, leaves, n);
      if ts[0].Pred? {
        MarksInText(d, ts[1..], leaves[1..], n + 1);
        MarksInTest(d, leaves[0].op, leaves[0].field, n);
      } else {
        MarksInText(d, ts[1..], leaves, n);
        MarksInKeyword(d, false, ts[0]);
      }
    }
  }

  lemma {:induction false} FieldMarksZero(leaves: seq<FilterExpr>)
    requires forall l :: l in leaves ==> l.Leaf?
    ensures FieldMarks(leaves) == 0 <==> forall l :: l in leaves ==> '?' !in l.field
  {
    if leaves != [] {
      FieldMarksZero(leaves[1..]);
      if '?' !in leaves[0].field {
        NoMarks(leaves[0].field);
      } else {
        assert '?' in Filter(leaves[0].field, IsMark());
      }
      assert leaves == [leaves[0]] + leaves[1..];
    }
  }

  /** A clause has one `?` for each parameter exactly when no field name contains one. */
  lemma MarksMatchParamsIff(d: Dialect, f: FilterExpr)
    ensures Marks(FilterToSql(d, f).0) == |FilterToSql(d, f).1| <==> MarkFree(f)
  {
    hide Head, Tail, PathText;
    ClauseIsTokens(d, f, 1);
    ParamsAreLiterals(d, f);
    TestsAreLeaves(d, f, 1);
    MarksInText(d, Tokens(d, f, 1), Leaves(f), 1);
    FieldMarksZero(Leaves(f));
  }

  /** Renumbering a mark-free clause gives each test its own number. */
  lemma {:induction false} RenumberText(ts: seq<Token>, leaves: seq<FilterExpr>, n: nat)
    requires forall l :: l in leaves ==> l.Leaf? && '?' !in l.field
    requires PredsIn(ts) == TestsOf(Postgres, leaves, n)
    ensures Renumber(TextOf(Postgres, false, ts), n) == TextOf(Postgres, true, ts)
    decreases |ts|
  {
    hide Text, Marks, Renumber, TestsOf, PredsIn;
    if ts == [] {
      RenumberPlain("", n);
    } else {
      RenumberConcat(Text(Postgres, false, ts[0]), TextOf(Postgres, false, ts[1..]), n);
      FirstTest(Postgres, ts, leaves, n);
      if ts[0].Pred? {
        RenumberText(ts[1..], leaves[1..], n + 1);
        RenumberLeaf(leaves[0].op, leaves[0].field, n);
      } else {
        RenumberText(ts[1..], leaves, n);
        RenumberKeyword(ts[0], n);
      }
    }
  }

  lemma RenumberKeyword(t: Token, n: nat)
    requires !t.Pred?
    ensures Renumber(Text(Postgres, false, t), n) == Text(Postgres, true, t) && Marks(Text(Postgres, false, t)) == 0
  {
    MarksInKeyword(Postgres, false, t);
    RenumberPlain(Text(Postgres, false, t), n);
  }

  lemma ZeroMarks(s: string)
    requires Marks(s) == 0
    ensures '?' !in s
  {
    assert Filter(s, IsMark()) == [];
    assert '?' in s ==> '?' in Filter(s, IsMark());
  }

  lemma RenumberMark(n: nat)
    ensures Renumber("?", n) == "$" + Decimal(n) && Marks("?") == 1
  {
    hide Decimal;
    assert "?"[1..] == "";
    assert "$" + Decimal(n) + "" == "$" + Decimal(n);
  }

  /** A placeholder between texts without marks. */
  lemma RenumberAround(head: string, tail: string, n: nat)
    requires '?' !in head && '?' !in tail
    ensures Renumber(head + "?" + tail, n) == head + ("$" + Decimal(n)) + tail && Marks(head + "?" + tail) == 1
  {
    hide Renumber, Marks, Decimal;
    RenumberPlain(head, n);
    RenumberPlain(tail, n + 1);
    RenumberMark(n);
    RenumberConcat(head + "?", tail, n);
    RenumberConcat(head, "?", n);
    MarksConcat(head + "?", tail);
    MarksConcat(head, "?");
  }

  lemma RenumberLeaf(op: CmpOp, field: string, n: nat)
    requires '?' !in field
    ensures var t := Pred(Compare(op, PathText(Postgres, field)), n);
      && Renumber(Text(Postgres, false, t), n) == Text(Postgres, true, t)
      && Marks(Text(Postgres, false, t)) == 1
  {
    hide Head, Tail, PathText, Renumber, Marks, Decimal;
    MarksInLeaf(Postgres, op, field);
    NoMarks(field);
    ZeroMarks(Head(Postgres, op, PathText(Postgres, field)));
    RenumberAround(Head(Postgres, op, PathText(Postgres, field)), Tail(Postgres, op), n);
  }

  /** Renumbering leaves no mark. */
  lemma {:induction false} RenumberRemovesMarks(s: string, next: nat)
    ensures '?' !in Renumber(s, next)
  {
    if s != "" {
      DecimalDigits(next);
      RenumberRemovesMarks(s[1..], if s[0] == '?' then next + 1 else next);
    }
  }

  predicate IsDigit(c: char) {
    '0' <= c <= '9'
  }

  lemma {:induction false} DecimalDigits(n: nat)
    ensures forall c :: c in Decimal(n) ==> IsDigit(c)
    ensures Decimal(n) != ""
  {
    if n >= 10 {
      DecimalDigits(n / 10);
    }
  }

  lemma {:induction false} CharInText(d: Dialect, numbered: bool, ts: seq<Token>, t: Token, c: char)
    requires t in ts && c in Text(d, numbered, t)
    ensures c in TextOf(d, numbered, ts)
  {
    hide Text;
    if ts[0] != t {
      CharInText(d, numbered, ts[1..], t, c);
    }
  }

  /** Each leaf is tested somewhere in the clause. */
  lemma LeafInWhere(d: Dialect, f: FilterExpr, l: FilterExpr) returns (k: nat)
    requires l in Leaves(f)
    ensures Pred(Compare(l.op, PathText(d, l.field)), k) in WhereTokens(d, f)
  {
    hide PathText, Group;
    WhereTests(d, f);
    var i :| 0 <= i < |Leaves(f)| && Leaves(f)[i] == l;
    k := 2 + i;
    var t := Pred(Compare(l.op, PathText(d, l.field)), k);
    assert TestsOf(d, Leaves(f), 2)[i] == t;
    assert PredsIn(WhereTokens(d, f))[1 + i] == t;
    PredsInMembers(WhereTokens(d, f));
  }

  /** Each comparison of the clause is a leaf. */
  lemma WhereTestIsLeaf(d: Dialect, f: FilterExpr, t: Token) returns (l: FilterExpr)
    requires t in WhereTokens(d, f) && t.Pred? && t.atom.Compare?
    ensures l in Leaves(f) && t.atom == Compare(l.op, PathText(d, l.field))
  {
    hide PathText, Group;
    WhereTests(d, f);
    PredsInMembers(WhereTokens(d, f));
    var tests := TestsOf(d, Leaves(f), 2);
    assert t in [Pred(Like, 1)] + tests;
    var i :| 0 <= i < |tests| && tests[i] == t;
    l := Leaves(f)[i];
  }

  lemma {:induction false} PredsInMembers(ts: seq<Token>)
    ensures forall t :: t in PredsIn(ts) <==> t in ts && t.Pred?
  {
    if ts != [] {
      PredsInMembers(ts[1..]);
      assert ts == [ts[0]] + ts[1..];
    }
  }

  /** Only dots change when a field becomes a path. */
  lemma {:induction false} JoinedChars(s: string, c: char)
    requires c != '.' && c != ','
    ensures c in Join(Split(s, '.'), ",") <==> c in s
  {
    hide Join;
    if s == "" {
      assert Split(s, '.') == [""];
      JoinOne("", ",");
    } else {
      JoinSplit(s);
      JoinedChars(s[1..], c);
      assert s == [s[0]] + s[1..];
    }
  }

  lemma PathChars(d: Dialect, field: string, c: char)
    requires c == '?' || c == '\''
    ensures c in PathText(d, field) <==> c in field
  {
    hide Join, Split;
    JoinedChars(field, c);
  }

  /**
   * The query text a search sends is the token stream with `$2`, `$3`, ... exactly when no field puts
   * marks of its own into a Postgres clause; leaf `i` is bound to parameter `i + 2` in any case.
   */
  lemma WhereIsTokensIff(d: Dialect, prefix: string, f: FilterExpr, jsonText: JsonText)
    ensures var (where, binds) := SearchWhere(d, prefix, Some(f), jsonText);
      && (where == TextOf(d, d.Postgres?, WhereTokens(d, f)) <==> (d.Postgres? ==> MarkFree(f)))
      && binds == [prefix + "%"] + MapText(LeafValues(f), BindText(d, jsonText))
      && PredsIn(WhereTokens(d, f)) == [Pred(Like, 1)] + TestsOf(d, Leaves(f), 2)
  {
    ParamsAreLiterals(d, f);
    WhereTests(d, f);
    if d.Sqlite? || MarkFree(f) {
      WhereIsTokens(d, prefix, f, jsonText);
    } else {
      hide FilterToSql, TextOf, Group;
      WhereHasNoMark(prefix, f, jsonText);
      MarkStays(f);
    }
  }

  lemma WhereIsTokens(d: Dialect, prefix: string, f: FilterExpr, jsonText: JsonText)
    requires d.Postgres? ==> MarkFree(f)
    ensures SearchWhere(d, prefix, Some(f), jsonText).0 == TextOf(d, d.Postgres?, WhereTokens(d, f))
  {
    hide Head, Tail, PathText;
    var numbered := d.Postgres?;
    ClauseIsTokens(d, f, 2);
    TestsAreLeaves(d, f, 2);
    if numbered {
      RenumberText(Tokens(d, f, 2), Leaves(f), 2);
    }
    TextGroup(d, numbered, f, 2);
    WhereText(d, numbered, f);
  }

  /** The text sent to Postgres has no mark left. */
  lemma WhereHasNoMark(prefix: string, f: FilterExpr, jsonText: JsonText)
    ensures '?' !in SearchWhere(Postgres, prefix, Some(f), jsonText).0
  {
    hide FilterToSql, Renumber;
    RenumberRemovesMarks(FilterToSql(Postgres, f).0, 2);
  }

  /** A mark in a field is still there in the token stream. */
  lemma MarkStays(f: FilterExpr)
    requires !MarkFree(f)
    ensures '?' in TextOf(Postgres, true, WhereTokens(Postgres, f))
  {
    hide Group, PathText, Leaves;
    var l :| l in Leaves(f) && '?' in l.field;
    var k := LeafInWhere(Postgres, f, l);
    PathChars(Postgres, l.field, '?');
    var t := Pred(Compare(l.op, PathText(Postgres, l.field)), k);
    assert '?' in Text(Postgres, true, t);
    CharInText(Postgres, true, WhereTokens(Postgres, f), t, '?');
  }

  lemma WhereText(d: Dialect, numbered: bool, f: FilterExpr)
    ensures TextOf(d, numbered, WhereTokens(d, f))
         == (if numbered then "namespace LIKE $1" else "namespace LIKE ?") + " AND " + TextOf(d, numbered, Group(d, f, 2))
  {
    hide Head, Tail, Group;
    var like, conj := Pred(Like, 1), KwAnd;
    assert WhereTokens(d, f) == ([like] + [conj]) + Group(d, f, 2);
    TextConcat(d, numbered, [like] + [conj], Group(d, f, 2));
    TextConcat(d, numbered, [like], [conj]);
    TextOne(d, numbered, like);
    TextOne(d, numbered, conj);
    assert Decimal(1) == "1";
    assert "namespace LIKE " + ("$" + "1") == "namespace LIKE $1";
    assert "namespace LIKE " + "?" == "namespace LIKE ?";
  }

  lemma WhereTests(d: Dialect, f: FilterExpr)
    ensures PredsIn(WhereTokens(d, f)) == [Pred(Like, 1)] + TestsOf(d, Leaves(f), 2)
  {
    hide Group, TestsOf, Leaves;
    var front := [Pred(Like, 1), KwAnd];
    assert front[1..] == [KwAnd] && front[1..][1..] == [];
    assert PredsIn([KwAnd]) == [] && PredsIn(front) == [Pred(Like, 1)];
    hide PredsIn;
    GroupTests(d, f, 2);
    PredsConcat(front, Group(d, f, 2));
  }
}
