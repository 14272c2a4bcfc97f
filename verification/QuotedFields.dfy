/** What a quote inside a field name does to the WHERE clause: a filter that selects outside its namespace. */
module QuotedFields {
  import opened Wrappers
  import opened Json
  import opened Filters
  import opened SqlConditions
  import opened SqlCompiler
  import opened SqlMeaning
  import opened SqlLexing
  import opened SqlEvaluation

  /** This field closes its literal, its comparison and the clause's parentheses, and opens others. */
  const QUOTED_FIELD := "a" + "') = ?" + ")) OR ((" + "json_extract(value, '" + "$.b"

  /** One ordinary comparison beside it. */
  function QuotedFilter(v: Json, w: Json): FilterExpr {
    Or([Leaf(Eq, QUOTED_FIELD, v), Leaf(Eq, "c", w)])
  }

  function PathAtom(path: string): Atom {
    Compare(Eq, path)
  }

  function TestOf(path: string, k: nat): Token {
    Pred(PathAtom(path), k)
  }

  // The tokens of the clause around the first comparison, and what that comparison reads as.

  const BEFORE := [Pred(Like, 1), KwAnd, Open, Open]

  function Rest(k: nat): seq<Token> {
    [Close, KwOr, Open, TestOf("$.c", k), Close, Close]
  }

  const BROKEN := [TestOf("$.a", 2), Close, Close, KwOr, Open, Open, TestOf("$.b", 3)]

  function EscapedTokens(): seq<Token> {
    BEFORE + BROKEN + Rest(4)
  }

  /** The namespace test and one comparison, or two others. */
  const ESCAPED := Either(
    Both(Test(Like, 1), Test(PathAtom("$.a"), 2)),
    Either(Test(PathAtom("$.b"), 3), Test(PathAtom("$.c"), 4)))

  /**
   * With such a field the text reads as three comparisons, two of them alternatives to the namespace
   * test, and the literal bound for the next field answers one of those: a row outside the namespace is
   * selected.
   */
  lemma QuotedFieldEscapes(prefix: string, v: Json, w: Json, jsonText: JsonText)
    ensures var f := QuotedFilter(v, w);
      var (where, binds) := SearchWhere(Sqlite, prefix, Some(f), jsonText);
      && NonEmpty(f) && !Spliceable(Sqlite, f)
      && ReadCondition(Sqlite, where) == Some(ESCAPED)
      && exists row: Row :: row(Like, prefix + "%") == False && Value(ESCAPED, binds, row) == True
  {
    var f := QuotedFilter(v, w);
    TwoLeaves(Leaf(Eq, QUOTED_FIELD, v), Leaf(Eq, "c", w));
    assert QUOTED_FIELD[1] == '\'' && Leaves(f)[0] in Leaves(f);
    QuotedReads(prefix, v, w, jsonText);
    ParamsAreLiterals(Sqlite, f);
    hide FilterToSql, ReadCondition, Leaves, NonEmpty;
    assert |SearchWhere(Sqlite, prefix, Some(f), jsonText).1| == 3;
    OutsideSelected(SearchWhere(Sqlite, prefix, Some(f), jsonText).1, prefix + "%");
  }

  lemma OutsideSelected(binds: seq<string>, pattern: string)
    requires |binds| == 3
    ensures exists row: Row :: row(Like, pattern) == False && Value(ESCAPED, binds, row) == True
  {
    var row: Row := (atom, _) => if atom == PathAtom("$.b") then True else False;
    assert "$.a" != "$.b" by {
      assert "$.a"[2] != "$.b"[2];
    }
    assert Value(Test(PathAtom("$.b"), 3), binds, row) == True;
    assert Value(ESCAPED, binds, row) == True && row(Like, pattern) == False;
  }

  lemma TwoLeaves(x: FilterExpr, y: FilterExpr)
    requires x.Leaf? && y.Leaf?
    ensures Leaves(Or([x, y])) == [x, y] && NonEmpty(Or([x, y]))
  {
    var es := [x, y];
    assert es[1..] == [y] && [y][1..] == [];
    assert LeavesOf([y]) == [y] && NonEmptyAll([y]);
    assert LeavesOf(es) == [x] + [y];
  }

  lemma QuotedReads(prefix: string, v: Json, w: Json, jsonText: JsonText)
    ensures ReadCondition(Sqlite, SearchWhere(Sqlite, prefix, Some(QuotedFilter(v, w)), jsonText).0) == Some(ESCAPED)
  {
    hide SearchWhere, Lex, Parse, TextOf, EscapedTokens;
    QuotedText(prefix, v, w, jsonText);
    EscapedLexes();
    EscapedParse();
  }

  // ----- The text -----

  /** The clause's own tokens. */
  lemma QuotedTokens(v: Json, w: Json)
    ensures WhereTokens(Sqlite, QuotedFilter(v, w)) == BEFORE + [TestOf("$." + QUOTED_FIELD, 2)] + Rest(3)
  {
    assert "$." + "c" == "$.c";
    TwoTokens(QUOTED_FIELD, v, "c", w);
  }

  lemma TwoTokens(p: string, v: Json, q: string, w: Json)
    ensures WhereTokens(Sqlite, Or([Leaf(Eq, p, v), Leaf(Eq, q, w)]))
         == BEFORE + [TestOf("$." + p, 2)] + [Close, KwOr, Open, TestOf("$." + q, 3), Close, Close]
  {
    var x, y := Leaf(Eq, p, v), Leaf(Eq, q, w);
    assert [x, y][1..] == [y] && [y][1..] == [];
    assert Leaves(x) == [x] && Leaves(y) == [y];
    assert Group(Sqlite, x, 2) == [Open, TestOf("$." + p, 2), Close];
    assert Group(Sqlite, y, 3) == [Open, TestOf("$." + q, 3), Close];
    assert GroupTail(Sqlite, [y], 3, KwOr) == [KwOr] + Group(Sqlite, y, 3);
    assert Tokens(Sqlite, Or([x, y]), 2) == Group(Sqlite, x, 2) + GroupTail(Sqlite, [y], 3, KwOr);
  }

  /** SQLite's marks carry no numbers. */
  lemma RestText()
    ensures TextOf(Sqlite, false, Rest(3)) == TextOf(Sqlite, false, Rest(4))
  {
    TextInMiddle([Close, KwOr, Open], TestOf("$.c", 3), [Close, Close]);
    TextInMiddle([Close, KwOr, Open], TestOf("$.c", 4), [Close, Close]);
    assert Rest(3) == [Close, KwOr, Open] + [TestOf("$.c", 3)] + [Close, Close];
    assert Rest(4) == [Close, KwOr, Open] + [TestOf("$.c", 4)] + [Close, Close];
  }

  lemma TextInMiddle(a: seq<Token>, t: Token, b: seq<Token>)
    ensures TextOf(Sqlite, false, a + [t] + b)
         == TextOf(Sqlite, false, a) + Text(Sqlite, false, t) + TextOf(Sqlite, false, b)
  {
    TextConcat(Sqlite, false, a + [t], b);
    TextConcat(Sqlite, false, a, [t]);
    TextOne(Sqlite, false, t);
  }

  /** The comparison's text from the closing quote to its mark. */
  const BACK := "'" + Middle(Sqlite, false) + OpText(Eq) + Lead(false)

  lemma TestText(path: string, k: nat)
    ensures Text(Sqlite, false, TestOf(path, k)) == Front(Sqlite, false) + path + BACK + "?"
  {
    hide Front, Middle, OpText, Lead;
  }

  /** The one comparison is spelled like the seven tokens. */
  lemma BrokenText()
    ensures Text(Sqlite, false, TestOf("$." + QUOTED_FIELD, 2)) == TextOf(Sqlite, false, BROKEN)
  {
    var front := Front(Sqlite, false);
    TestText("$." + QUOTED_FIELD, 2);
    TestText("$.a", 2);
    TestText("$.b", 3);
    BrokenPieces(TestOf("$.a", 2), TestOf("$.b", 3));
    assert BACK + "?" == "') = ?" && ")" + ")" + " OR " + "(" + "(" == ")) OR ((";
    FieldPieces(front);
    hide BACK, QUOTED_FIELD, TextOf, Text;
    Glue(front, BACK, "?", ")) OR ((", "$.a", "$.b");
  }

  lemma FieldPieces(front: string)
    requires front == Front(Sqlite, false)
    ensures "$." + QUOTED_FIELD == "$.a" + (BACK + "?") + ")) OR ((" + front + "$.b"
  {
    assert BACK + "?" == "') = ?";
    assert "$." + ("a" + "') = ?" + ")) OR ((" + front + "$.b") == ("$." + "a") + "') = ?" + ")) OR ((" + front + "$.b";
    assert "$." + "a" == "$.a";
  }

  lemma BrokenPieces(x: Token, y: Token)
    ensures TextOf(Sqlite, false, [x, Close, Close, KwOr, Open, Open, y])
         == Text(Sqlite, false, x) + (")" + ")" + " OR " + "(" + "(") + Text(Sqlite, false, y)
  {
    MiddleText();
    hide TextOf, Text;
    var mid := [Close, Close, KwOr, Open, Open];
    TextInMiddle([], x, mid + [y] + []);
    TextInMiddle(mid, y, []);
    Around(x, mid, y);
    var tx, ty := Text(Sqlite, false, x), Text(Sqlite, false, y);
    assert "" + tx == tx && TextOf(Sqlite, false, mid) + ty + "" == TextOf(Sqlite, false, mid) + ty;
  }

  lemma Around(x: Token, mid: seq<Token>, y: Token)
    requires mid == [Close, Close, KwOr, Open, Open]
    ensures [x, Close, Close, KwOr, Open, Open, y] == [] + [x] + (mid + [y] + [])
  {
  }

  lemma MiddleText()
    ensures TextOf(Sqlite, false, [Close, Close, KwOr, Open, Open]) == ")" + ")" + " OR " + "(" + "("
    ensures TextOf(Sqlite, false, []) == ""
  {
    var close, open := [Close, Close], [Open, Open];
    TextInMiddle(close, KwOr, open);
    assert close + [KwOr] + open == [Close, Close, KwOr, Open, Open];
    TextConcat(Sqlite, false, [Close], [Close]);
    TextConcat(Sqlite, false, [Open], [Open]);
    TextOne(Sqlite, false, Close);
    TextOne(Sqlite, false, Open);
    assert [Close] + [Close] == close && [Open] + [Open] == open;
  }

  lemma Glue(front: string, back: string, q: string, mid: string, a: string, b: string)
    ensures front + (a + (back + q) + mid + front + b) + back + q
         == (front + a + back + q) + mid + (front + b + back + q)
  {
    assert front + (a + (back + q) + mid + front + b) == (front + a + back + q) + mid + (front + b);
  }

  lemma QuotedText(prefix: string, v: Json, w: Json, jsonText: JsonText)
    ensures SearchWhere(Sqlite, prefix, Some(QuotedFilter(v, w)), jsonText).0 == TextOf(Sqlite, false, EscapedTokens())
  {
    hide SearchWhere, TextOf, Text, WhereTokens, Rest, BEFORE, BROKEN, QuotedFilter, QUOTED_FIELD, TestOf;
    var t := TestOf("$." + QUOTED_FIELD, 2);
    WhereIsTokens(Sqlite, prefix, QuotedFilter(v, w), jsonText);
    QuotedTokens(v, w);
    TextInMiddle(BEFORE, t, Rest(3));
    BrokenText();
    RestText();
    TextConcat(Sqlite, false, BEFORE + BROKEN, Rest(4));
    TextConcat(Sqlite, false, BEFORE, BROKEN);
  }

  // ----- The tokens it reads as -----

  lemma {:induction false} NumberedConcat(a: seq<Token>, b: seq<Token>, n: nat, m: nat)
    requires NumberedFrom(a, n) && NumberedFrom(b, m) && m == n + |PredsIn(a)|
    ensures NumberedFrom(a + b, n)
  {
    if a == [] {
      assert a + b == b;
    } else {
      assert (a + b)[1..] == a[1..] + b;
      NumberedConcat(a[1..], b, After(a[0], n), m);
    }
  }

  lemma NumberedThree(a: Token, b: Token, c: Token, n: nat)
    requires (a.Pred? ==> a.param == n) && (b.Pred? ==> b.param == After(a, n))
    requires c.Pred? ==> c.param == After(b, After(a, n))
    ensures NumberedFrom([a, b, c], n) && n + |PredsIn([a, b, c])| == After(c, After(b, After(a, n)))
  {
    assert [a, b, c][1..] == [b, c] && [b, c][1..] == [c] && [c][1..] == [];
    assert NumberedFrom([c], After(b, After(a, n))) && NumberedFrom([b, c], After(a, n));
    assert PredsIn([c]) == if c.Pred? then [c] else [];
    assert PredsIn([b, c]) == (if b.Pred? then [b] else []) + PredsIn([c]);
  }

  lemma EscapedNumbered()
    ensures NumberedFrom(EscapedTokens(), 1)
  {
    var a, b, c := TestOf("$.a", 2), TestOf("$.b", 3), TestOf("$.c", 4);
    NumberedThree(Pred(Like, 1), KwAnd, Open, 1);
    NumberedThree(Open, a, Close, 2);
    NumberedThree(Close, KwOr, Open, 3);
    NumberedThree(Open, b, Close, 3);
    NumberedThree(KwOr, Open, c, 4);
    var end := [Close, Close];
    assert end[1..] == [Close] && [Close][1..] == [] && NumberedFrom(end, 5);
    hide NumberedFrom, PredsIn;
    NumberedConcat([KwOr, Open, c], end, 4, 5);
    NumberedConcat([Open, b, Close], [KwOr, Open, c] + end, 3, 4);
    NumberedConcat([Close, KwOr, Open], [Open, b, Close] + ([KwOr, Open, c] + end), 3, 3);
    NumberedConcat([Open, a, Close], [Close, KwOr, Open] + ([Open, b, Close] + ([KwOr, Open, c] + end)), 2, 3);
    var tail := [Open, a, Close] + ([Close, KwOr, Open] + ([Open, b, Close] + ([KwOr, Open, c] + end)));
    NumberedConcat([Pred(Like, 1), KwAnd, Open], tail, 1, 2);
    Regrouped(Pred(Like, 1), a, b, c);
  }

  lemma Regrouped(l: Token, a: Token, b: Token, c: Token)
    ensures [l, KwAnd, Open, Open] + [a, Close, Close, KwOr, Open, Open, b] + [Close, KwOr, Open, c, Close, Close]
         == [l, KwAnd, Open]
          + ([Open, a, Close] + ([Close, KwOr, Open] + ([Open, b, Close] + ([KwOr, Open, c] + [Close, Close]))))
  {
  }

  lemma EscapedLexes()
    ensures Lex(Sqlite, TextOf(Sqlite, false, EscapedTokens()), 1) == Some(EscapedTokens())
  {
    assert QuoteFree(EscapedTokens());
    hide Lex, TextOf, SafeTextOf, EscapedTokens, QuoteFree;
    RawIsSafeIff(Sqlite, EscapedTokens());
    EscapedNumbered();
    LexPrinted(Sqlite, EscapedTokens(), 1);
  }

  // ----- Parsing them: AND binds tighter than OR -----

  /** A condition in parentheses is one factor. */
  lemma ParseWrapped(inner: seq<Token>, c: Condition, rest: seq<Token>)
    requires ParseOr(inner + ([Close] + rest)) == Some((c, [Close] + rest))
    ensures ParseFactor([Open] + inner + ([Close] + rest)) == Some((c, rest))
  {
    var ts := [Open] + inner + ([Close] + rest);
    assert ts[0] == Open && ts[1..] == inner + ([Close] + rest);
    assert ([Close] + rest)[0] == Close && ([Close] + rest)[1..] == rest;
    hide ParseOr;
  }

  /** A test before a closing parenthesis is a whole condition. */
  lemma ParseTest(t: Token, rest: seq<Token>)
    requires t.Pred?
    ensures ParseOr([t] + ([Close] + rest)) == Some((Test(t.atom, t.param), [Close] + rest))
  {
    var ts := [t] + ([Close] + rest);
    assert ts[0] == t && ts[1..] == [Close] + rest;
    TermIsFactor(ts);
    ConditionIsTerm(ts);
  }

  lemma ParseParenthesised(t: Token, rest: seq<Token>)
    requires t.Pred?
    ensures ParseFactor([Open] + [t] + ([Close] + rest)) == Some((Test(t.atom, t.param), rest))
  {
    ParseTest(t, rest);
    ParseWrapped([t], Test(t.atom, t.param), rest);
  }

  /** The first parentheses: a test inside two pairs. */
  lemma ParseDoubled(t: Token, rest: seq<Token>)
    requires t.Pred?
    ensures ParseFactor([Open, Open, t, Close, Close] + rest) == Some((Test(t.atom, t.param), rest))
  {
    var inner := [Open] + [t] + ([Close] + []);
    var ts := inner + ([Close] + rest);
    assert ts == [Open] + [t] + ([Close] + ([Close] + rest));
    ParseParenthesised(t, [Close] + rest);
    TermIsFactor(ts);
    ConditionIsTerm(ts);
    ParseWrapped(inner, Test(t.atom, t.param), rest);
    assert [Open] + inner + ([Close] + rest) == [Open, Open, t, Close, Close] + rest;
  }

  /** The second: two tests and an OR. */
  lemma ParseAlternatives(t: Token, u: Token)
    requires t.Pred? && u.Pred?
    ensures ParseFactor([Open, Open, t, Close, KwOr, Open, u, Close, Close])
         == Some((Either(Test(t.atom, t.param), Test(u.atom, u.param)), []))
  {
    var left, right := Test(t.atom, t.param), Test(u.atom, u.param);
    var second := [Open] + [u] + ([Close] + ([Close] + []));
    var ts := [Open] + [t] + ([Close] + ([KwOr] + second));
    ParseParenthesised(t, [KwOr] + second);
    ParseParenthesised(u, [Close] + []);
    TermIsFactor(ts);
    TermIsFactor(second);
    assert ([KwOr] + second)[1..] == second;
    OrTailStep(left, [KwOr] + second);
    assert OrTail(Either(left, right), [Close] + []) == Some((Either(left, right), [Close] + []));
    var inner := [Open, t, Close, KwOr, Open, u, Close];
    assert ts == inner + ([Close] + []);
    ParseWrapped(inner, Either(left, right), []);
    assert [Open] + inner + ([Close] + []) == [Open, Open, t, Close, KwOr, Open, u, Close, Close];
  }

  lemma EscapedParse()
    ensures Parse(EscapedTokens()) == Some(ESCAPED)
  {
    var a, b, c := TestOf("$.a", 2), TestOf("$.b", 3), TestOf("$.c", 4);
    var like := Pred(Like, 1);
    var second := [Open, Open, b, Close, KwOr, Open, c, Close, Close];
    var first := [Open, Open, a, Close, Close] + ([KwOr] + second);
    assert EscapedTokens() == [like] + ([KwAnd] + first);
    ParseDoubled(a, [KwOr] + second);
    ParseAlternatives(b, c);
    EscapedOutline(like, Test(a.atom, a.param), first, second);
  }

  /** A test AND a factor, OR another factor. */
  lemma EscapedOutline(like: Token, x: Condition, first: seq<Token>, second: seq<Token>)
    requires like.Pred? && ParseFactor(first) == Some((x, [KwOr] + second))
    requires ParseFactor(second).Some? && ParseFactor(second).value.1 == []
    ensures Parse([like] + ([KwAnd] + first))
         == Some(Either(Both(Test(like.atom, like.param), x), ParseFactor(second).value.0))
  {
    var l := Test(like.atom, like.param);
    var ts := [like] + ([KwAnd] + first);
    var y := ParseFactor(second).value.0;
    assert ts[0] == like && ts[1..] == [KwAnd] + first && ([KwAnd] + first)[1..] == first;
    assert ParseFactor(ts) == Some((l, [KwAnd] + first));
    AndTailStep(l, [KwAnd] + first);
    assert ParseAnd(ts) == Some((Both(l, x), [KwOr] + second));
    assert ([KwOr] + second)[1..] == second;
    TermIsFactor(second);
    OrTailStep(Both(l, x), [KwOr] + second);
    assert OrTail(Either(Both(l, x), y), []) == Some((Either(Both(l, x), y), []));
  }
}
