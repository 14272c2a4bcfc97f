/** Reading the emitted SQL text back: a lexer with quoted literals as units, and when it finds the filter's tokens. */
module SqlLexing {
  import opened Wrappers
  import opened Filters
  import opened SqlConditions
  import opened SqlCompiler
  import opened SqlMeaning

  // ----- The lexer -----

  /** The rest of `s` after the phrase `p`. */
  function Strip(p: string, s: string): (r: Option<string>)
    ensures r.Some? ==> s == p + r.value
  {
    if |p| <= |s| && s[..|p|] == p then Some(s[|p|..]) else None
  }

  /**
   * The inside of a quoted literal and what follows its closing quote, `s` starting after the
   * opening one. Two quotes in a row stand for one.
   */
  function LexLiteral(s: string): (r: Option<(string, string)>)
    ensures r.Some? ==> |r.value.1| < |s|
    decreases |s|
  {
    if s == "" then None
    else if s[0] != '\'' then
      var (v, rest) :- LexLiteral(s[1..]);
      Some(([s[0]] + v, rest))
    else if |s| > 1 && s[1] == '\'' then
      var (v, rest) :- LexLiteral(s[2..]);
      Some((['\''] + v, rest))
    else Some(("", s[1..]))
  }

  /** The longest operator at the start of `s`. */
  function LexOp(ordered: bool, s: string): (r: Option<(CmpOp, string)>)
    ensures r.Some? ==> Ordered(r.value.0) == ordered && s == OpText(r.value.0) + r.value.1
  {
    if !ordered then
      if Strip("!=", s).Some? then Some((Ne, s[2..]))
      else if Strip("=", s).Some? then Some((Eq, s[1..]))
      else None
    else if Strip(">=", s).Some? then Some((Gte, s[2..]))
    else if Strip("<=", s).Some? then Some((Lte, s[2..]))
    else if Strip(">", s).Some? then Some((Gt, s[1..]))
    else if Strip("<", s).Some? then Some((Lt, s[1..]))
    else None
  }

  function DigitValue(c: char): nat
    requires IsDigit(c)
  {
    (c - '0') as nat
  }

  /** Reads all digits that follow. */
  function MoreDigits(s: string, acc: nat): (r: (nat, string))
    ensures |r.1| <= |s|
  {
    if s == "" || !IsDigit(s[0]) then (acc, s) else MoreDigits(s[1..], 10 * acc + DigitValue(s[0]))
  }

  /** A parameter: SQLite numbers each `?` itself, Postgres writes `$k`. */
  function LexPlaceholder(d: Dialect, s: string, next: nat): (r: Option<(nat, string)>)
    ensures r.Some? ==> |r.value.1| < |s|
  {
    if d.Sqlite? then
      var rest :- Strip("?", s);
      Some((next, rest))
    else
      var rest :- Strip("$", s);
      if rest != "" && IsDigit(rest[0]) then Some(MoreDigits(rest[1..], DigitValue(rest[0]))) else None
  }

  /** A comparison after its opening quote. */
  function LexCompare(d: Dialect, ordered: bool, s: string, next: nat): (r: Option<(Token, string)>)
    ensures r.Some? ==> |r.value.1| < |s| && r.value.0.Pred?
  {
    var (path, s1) :- LexLiteral(s);
    var s2 :- Strip(Middle(d, ordered), s1);
    var (op, s3) :- LexOp(ordered, s2);
    var s4 :- Strip(Lead(ordered), s3);
    var (k, s5) :- LexPlaceholder(d, s4, next);
    var rest :- Strip(Tail(d, op), s5);
    Some((Pred(Compare(op, path), k), rest))
  }

  const LIKE := "namespace LIKE "

  function LexKeyword(s: string): (r: Option<(Token, string)>)
    ensures r.Some? ==> |r.value.1| < |s| && !r.value.0.Pred?
  {
    if Strip("(", s).Some? then Some((Open, s[1..]))
    else if Strip(")", s).Some? then Some((Close, s[1..]))
    else if Strip(" AND ", s).Some? then Some((KwAnd, s[5..]))
    else if Strip(" OR ", s).Some? then Some((KwOr, s[4..]))
    else if Strip("NOT ", s).Some? then Some((KwNot, s[4..]))
    else None
  }

  /** The token at the start of `s`; a comparison in parentheses is tried before a parenthesis. */
  function LexToken(d: Dialect, s: string, next: nat): (r: Option<(Token, string)>)
    ensures r.Some? ==> |r.value.1| < |s|
  {
    if Strip(Front(d, false), s).Some? then LexCompare(d, false, s[|Front(d, false)|..], next)
    else if Strip(Front(d, true), s).Some? then LexCompare(d, true, s[|Front(d, true)|..], next)
    else if Strip(LIKE, s).Some? then
      var (k, rest) :- LexPlaceholder(d, s[|LIKE|..], next);
      Some((Pred(Like, k), rest))
    else LexKeyword(s)
  }

  function After(t: Token, next: nat): nat {
    if t.Pred? then next + 1 else next
  }

  /** A whole text, its parameters numbered from `next`. */
  function Lex(d: Dialect, s: string, next: nat): Option<seq<Token>>
    decreases |s|
  {
    if s == "" then Some([])
    else
      var (t, rest) :- LexToken(d, s, next);
      var ts :- Lex(d, rest, After(t, next));
      Some([t] + ts)
  }

  // ----- Printing with escaped literals, which the lexer undoes -----

  function Escape(s: string): string {
    if s == "" then ""
    else (if s[0] == '\'' then "''" else [s[0]]) + Escape(s[1..])
  }

  /** How a token reads when its path literal is escaped. */
  function SafeText(d: Dialect, t: Token): string {
    if t.Pred? && t.atom.Compare? then Text(d, d.Postgres?, t.(atom := t.atom.(path := Escape(t.atom.path))))
    else Text(d, d.Postgres?, t)
  }

  function SafeTextOf(d: Dialect, ts: seq<Token>): string {
    if ts == [] then "" else SafeText(d, ts[0]) + SafeTextOf(d, ts[1..])
  }

  lemma StripConcat(p: string, rest: string)
    ensures Strip(p, p + rest) == Some(rest) && (p + rest)[|p|..] == rest
  {
    assert (p + rest)[..|p|] == p;
  }

  lemma {:induction false} LiteralRoundTrip(v: string, rest: string)
    requires rest == "" || rest[0] != '\''
    ensures LexLiteral(Escape(v) + ("'" + rest)) == Some((v, rest))
  {
    if v == "" {
      assert Escape(v) + ("'" + rest) == "'" + rest;
    } else {
      var first := if v[0] == '\'' then "''" else [v[0]];
      assert Escape(v) + ("'" + rest) == first + (Escape(v[1..]) + ("'" + rest));
      hide Escape, LexLiteral;
      LiteralRoundTrip(v[1..], rest);
      assert v == [v[0]] + v[1..];
    }
  }

  /** Reading a printed number continues with what follows it. */
  lemma {:induction false} DecimalRead(k: nat, t: string)
    ensures var s := Decimal(k) + t;
      s != "" && IsDigit(s[0]) && MoreDigits(s[1..], DigitValue(s[0])) == MoreDigits(t, k)
  {
    var s := Decimal(k) + t;
    if k < 10 {
      assert Decimal(k) == ['0' + k as char];
      assert s[1..] == t;
    } else {
      var last := ['0' + (k % 10) as char];
      assert s == Decimal(k / 10) + (last + t);
      DecimalRead(k / 10, last + t);
      hide Decimal;
      assert (last + t)[1..] == t && (last + t)[0] == last[0];
      assert 10 * (k / 10) + DigitValue(last[0]) == k;
    }
  }

  lemma PlaceholderRoundTrip(d: Dialect, k: nat, next: nat, rest: string)
    requires d.Sqlite? ==> next == k
    requires rest == "" || !IsDigit(rest[0])
    ensures LexPlaceholder(d, Placeholder(d, d.Postgres?, k) + rest, next) == Some((k, rest))
  {
    if d.Sqlite? {
      StripConcat("?", rest);
    } else {
      DecimalRead(k, rest);
      assert ("$" + Decimal(k)) + rest == "$" + (Decimal(k) + rest);
      StripConcat("$", Decimal(k) + rest);
    }
  }

  lemma OpRoundTrip(op: CmpOp, rest: string)
    requires rest != "" && rest[0] == ' '
    ensures LexOp(Ordered(op), OpText(op) + rest) == Some((op, rest))
  {
    var s := OpText(op) + rest;
    assert s[|OpText(op)|..] == rest;
    assert |OpText(op)| == 1 ==> s[1] == ' ';
    StripConcat(OpText(op), rest);
  }

  /** What may follow a token: nothing that would lengthen a number or close a parenthesised comparison. */
  ghost predicate TokenEnds(s: string) {
    (s == "" || !IsDigit(s[0])) && Strip("value #> '", s).None?
  }

  lemma {:induction false} CompareRoundTrip(d: Dialect, op: CmpOp, path: string, k: nat, next: nat, rest: string)
    requires (d.Sqlite? ==> next == k) && TokenEnds(rest)
    ensures LexToken(d, SafeText(d, Pred(Compare(op, path), k)) + rest, next) == Some((Pred(Compare(op, path), k), rest))
  {
    var o := Ordered(op);
    var mark := Placeholder(d, d.Postgres?, k);
    var s5 := Tail(d, op) + rest;
    var s4 := mark + s5;
    var s3 := Lead(o) + s4;
    var s2 := OpText(op) + s3;
    var s1 := Middle(d, o) + s2;
    var s0 := Escape(path) + ("'" + s1);
    Regroup(Front(d, o), Escape(path), "'", Middle(d, o), OpText(op), Lead(o), mark, Tail(d, op), rest);
    assert SafeText(d, Pred(Compare(op, path), k)) + rest == Front(d, o) + s0;
    LiteralRoundTrip(path, s1);
    StripConcat(Middle(d, o), s2);
    OpRoundTrip(op, s3);
    StripConcat(Lead(o), s4);
    PlaceholderRoundTrip(d, k, next, s5);
    StripConcat(Tail(d, op), rest);
    assert LexCompare(d, o, s0, next) == Some((Pred(Compare(op, path), k), rest));
    StripConcat(Front(d, o), s0);
    FrontsDiffer(d, s0);
  }

  lemma FrontsDiffer(d: Dialect, s: string)
    ensures Strip(Front(d, false), Front(d, true) + s).None?
  {
    var t := Front(d, true) + s;
    assert t[0] == Front(d, true)[0] && Front(d, true)[0] != Front(d, false)[0];
    assert |Front(d, false)| <= |t| ==> t[..|Front(d, false)|][0] == t[0];
  }

  lemma Regroup(
      a: string, b: string, c: string, d: string, e: string, f: string, g: string, h: string, rest: string)
    ensures (a + b + c + d + e + f) + g + h + rest == a + (b + (c + (d + (e + (f + (g + (h + rest)))))))
  {
    assert (a + b + c + d + e + f) + g + h + rest == (a + b + c + d + e + f) + (g + (h + rest));
    assert (a + b + c + d + e + f) + (g + (h + rest)) == (a + b + c + d) + (e + (f + (g + (h + rest))));
    assert (a + b + c + d) + (e + (f + (g + (h + rest)))) == (a + b) + (c + (d + (e + (f + (g + (h + rest))))));
  }

  /** A text that starts with another character than the phrase does not start with the phrase. */
  lemma NotThere(p: string, s: string)
    requires p != "" && (s == "" || s[0] != p[0])
    ensures Strip(p, s).None?
  {
    assert |p| <= |s| ==> s[..|p|][0] == s[0];
  }

  lemma LikeRoundTrip(d: Dialect, k: nat, next: nat, rest: string)
    requires (d.Sqlite? ==> next == k) && TokenEnds(rest)
    ensures LexToken(d, SafeText(d, Pred(Like, k)) + rest, next) == Some((Pred(Like, k), rest))
  {
    var mark := Placeholder(d, d.Postgres?, k);
    var s := LIKE + (mark + rest);
    assert SafeText(d, Pred(Like, k)) + rest == s;
    assert s[0] == 'n';
    NotThere(Front(d, false), s);
    NotThere(Front(d, true), s);
    StripConcat(LIKE, mark + rest);
    PlaceholderRoundTrip(d, k, next, rest);
  }

  lemma KeywordRoundTrip(d: Dialect, t: Token, next: nat, rest: string)
    requires !t.Pred? && TokenEnds(rest)
    ensures LexToken(d, SafeText(d, t) + rest, next) == Some((t, rest))
  {
    var p := SafeText(d, t);
    var s := p + rest;
    assert s[0] == p[0] && (|p| > 1 ==> s[1] == p[1]);
    StripConcat(p, rest);
    NotThere(Front(d, false), s);
    NotThere(LIKE, s);
    if t == Open && d.Postgres? {
      OpenThenFront(rest);
    } else {
      NotThere(Front(d, true), s);
    }
    if t == KwOr {
      assert |" AND "| <= |s| ==> s[..5][1] == s[1];
    }
    KeywordRead(t, rest);
  }

  /** A parenthesis starts a comparison only when the rest of the comparison follows. */
  lemma OpenThenFront(rest: string)
    ensures Strip(Front(Postgres, true), "(" + rest).Some? ==> Strip("value #> '", rest).Some?
  {
    var s, p := "(" + rest, "value #> '";
    assert Front(Postgres, true) == "(" + p;
    if Strip("(" + p, s).Some? {
      assert s[1..] == rest && ("(" + p)[1..] == p;
      assert s[..1 + |p|][1..] == rest[..|p|];
    }
  }

  lemma KeywordRead(t: Token, rest: string)
    requires !t.Pred?
    ensures LexKeyword(Text(Sqlite, false, t) + rest) == Some((t, rest))
  {
    var p := Text(Sqlite, false, t);
    var s := p + rest;
    assert s[0] == p[0] && (|p| > 1 ==> s[1] == p[1]);
    StripConcat(p, rest);
    assert t == KwOr && |" AND "| <= |s| ==> s[..5][1] == s[1];
  }

  /** The parameters of a stream count up from `n`. */
  ghost predicate NumberedFrom(ts: seq<Token>, n: nat) {
    ts == [] || ((ts[0].Pred? ==> ts[0].param == n) && NumberedFrom(ts[1..], After(ts[0], n)))
  }

  lemma PrintedEnds(d: Dialect, ts: seq<Token>)
    ensures TokenEnds(SafeTextOf(d, ts))
  {
    if ts == [] {
      assert |"value #> '"| == 10;
    } else {
      PrintedStart(d, ts[0], SafeTextOf(d, ts[1..]));
    }
  }

  lemma PrintedStart(d: Dialect, t: Token, rest: string)
    ensures TokenEnds(SafeText(d, t) + rest)
  {
    if t.Pred? && t.atom.Compare? {
      var front := Front(d, Ordered(t.atom.op));
      var s := SafeText(d, t) + rest;
      SafeFront(d, t);
      hide SafeText, Text;
      assert s[..|front|] == front;
      FrontEnds(d, Ordered(t.atom.op), s);
    } else {
      var p := SafeText(d, t);
      assert (p + rest)[0] == p[0];
      NotThere("value #> '", p + rest);
    }
  }

  lemma SafeFront(d: Dialect, t: Token)
    requires t.Pred? && t.atom.Compare?
    ensures var front := Front(d, Ordered(t.atom.op));
      |front| <= |SafeText(d, t)| && SafeText(d, t)[..|front|] == front
  {
    hide Front, Middle, Lead, Tail, OpText;
  }

  lemma FrontEnds(d: Dialect, ordered: bool, s: string)
    requires |Front(d, ordered)| <= |s| && s[..|Front(d, ordered)|] == Front(d, ordered)
    ensures TokenEnds(s)
  {
    var front, p := Front(d, ordered), "value #> '";
    assert s[0] == front[0];
    if d.Postgres? && !ordered {
      assert s[8] == front[8];
      assert |p| <= |s| ==> s[..|p|][8] == s[8];
    } else {
      NotThere(p, s);
    }
  }

  /** The lexer undoes printing, whatever the literals hold, as long as they are escaped. */
  lemma {:induction false} LexPrinted(d: Dialect, ts: seq<Token>, n: nat)
    requires d.Sqlite? ==> NumberedFrom(ts, n)
    ensures Lex(d, SafeTextOf(d, ts), n) == Some(ts)
    decreases |ts|
  {
    hide LexToken, SafeText;
    if ts != [] {
      var t, rest := ts[0], SafeTextOf(d, ts[1..]);
      PrintedEnds(d, ts[1..]);
      TokenRoundTrip(d, t, n, rest);
      LexPrinted(d, ts[1..], After(t, n));
      assert ts == [t] + ts[1..];
    }
  }

  lemma TokenRoundTrip(d: Dialect, t: Token, next: nat, rest: string)
    requires (d.Sqlite? && t.Pred? ==> t.param == next) && TokenEnds(rest)
    ensures LexToken(d, SafeText(d, t) + rest, next) == Some((t, rest))
    ensures SafeText(d, t) != ""
  {
    match t
    case Pred(Like, k) => LikeRoundTrip(d, k, next, rest);
    case Pred(Compare(op, path), k) => CompareRoundTrip(d, op, path, k, next, rest);
    case _ => KeywordRoundTrip(d, t, next, rest);
  }

  // ----- The lexer never makes more of a text than its printing needs -----

  lemma {:induction false} EscapeLength(s: string)
    ensures |Escape(s)| >= |s|
    ensures '\'' in s ==> |Escape(s)| > |s|
    ensures '\'' !in s ==> Escape(s) == s
  {
    if s != "" {
      EscapeLength(s[1..]);
      assert s == [s[0]] + s[1..];
    }
  }

  lemma {:induction false} LiteralCost(s: string)
    requires LexLiteral(s).Some?
    ensures var (v, rest) := LexLiteral(s).value; s == Escape(v) + "'" + rest
    decreases |s|
  {
    var (v, rest) := LexLiteral(s).value;
    if s[0] != '\'' {
      LiteralCost(s[1..]);
      hide Escape, LexLiteral;
      assert s == [s[0]] + s[1..];
    } else if |s| > 1 && s[1] == '\'' {
      LiteralCost(s[2..]);
      hide Escape, LexLiteral;
      assert s == "''" + s[2..];
    } else {
      assert s == "'" + rest;
    }
  }

  /** Every character of `r` occurs in `s`. */
  ghost predicate Within(r: string, s: string) {
    forall c :: c in r ==> c in s
  }

  lemma {:induction false} DigitsCost(s: string, acc: nat)
    ensures var (k, rest) := MoreDigits(s, acc);
      |Decimal(k)| + |rest| <= |Decimal(acc)| + |s| && Within(rest, s)
  {
    if s != "" && IsDigit(s[0]) {
      var more := 10 * acc + DigitValue(s[0]);
      DigitsCost(s[1..], more);
      assert |Decimal(more)| <= |Decimal(acc)| + 1 by {
        assert more >= 10 ==> more / 10 == acc;
      }
    }
  }

  lemma PlaceholderCost(d: Dialect, s: string, next: nat)
    requires LexPlaceholder(d, s, next).Some?
    ensures var (k, rest) := LexPlaceholder(d, s, next).value;
      |Placeholder(d, d.Postgres?, k)| + |rest| <= |s| && Within(rest, s)
  {
    if d.Postgres? {
      var digits := Strip("$", s).value;
      DigitsCost(digits[1..], DigitValue(digits[0]));
      assert |Decimal(DigitValue(digits[0]))| == 1;
    }
  }

  lemma CompareCost(d: Dialect, ordered: bool, s: string, next: nat)
    requires LexCompare(d, ordered, s, next).Some?
    ensures var (t, rest) := LexCompare(d, ordered, s, next).value;
      && t.Pred? && t.atom.Compare? && Ordered(t.atom.op) == ordered
      && |SafeText(d, t)| + |rest| <= |Front(d, ordered)| + |s|
      && Within(t.atom.path, s) && Within(rest, s)
  {
    var (path, s1) := LexLiteral(s).value;
    LiteralCost(s);
    var s2 := Strip(Middle(d, ordered), s1).value;
    var (op, s3) := LexOp(ordered, s2).value;
    var s4 := Strip(Lead(ordered), s3).value;
    PlaceholderCost(d, s4, next);
    EscapeKeeps(path);
  }

  lemma {:induction false} EscapeKeeps(s: string)
    ensures Within(s, Escape(s))
  {
    if s != "" {
      EscapeKeeps(s[1..]);
    }
  }

  ghost predicate PathWithin(t: Token, s: string) {
    t.Pred? && t.atom.Compare? ==> Within(t.atom.path, s)
  }

  lemma TokenCost(d: Dialect, s: string, next: nat)
    requires LexToken(d, s, next).Some?
    ensures var (t, rest) := LexToken(d, s, next).value;
      && |SafeText(d, t)| + |rest| <= |s|
      && PathWithin(t, s) && Within(rest, s)
  {
    var (t, rest) := LexToken(d, s, next).value;
    if Strip(Front(d, false), s).Some? {
      CompareCost(d, false, s[|Front(d, false)|..], next);
    } else if Strip(Front(d, true), s).Some? {
      CompareCost(d, true, s[|Front(d, true)|..], next);
    } else if Strip(LIKE, s).Some? {
      PlaceholderCost(d, s[|LIKE|..], next);
    }
  }

  /** Whatever was lexed, printing it safely takes no more room, and its literals come from the text. */
  lemma {:induction false} LexCost(d: Dialect, s: string, next: nat)
    requires Lex(d, s, next).Some?
    ensures |SafeTextOf(d, Lex(d, s, next).value)| <= |s|
    ensures forall t :: t in Lex(d, s, next).value ==> PathWithin(t, s)
    decreases |s|
  {
    hide LexToken, SafeText;
    if s != "" {
      var (t, rest) := LexToken(d, s, next).value;
      TokenCost(d, s, next);
      LexCost(d, rest, After(t, next));
    }
  }

  ghost predicate QuoteFree(ts: seq<Token>) {
    forall t :: t in ts && t.Pred? && t.atom.Compare? ==> '\'' !in t.atom.path
  }

  /** Raw and escaped text agree exactly when no literal holds a quote. */
  lemma {:induction false} RawIsSafeIff(d: Dialect, ts: seq<Token>)
    ensures |SafeTextOf(d, ts)| >= |TextOf(d, d.Postgres?, ts)|
    ensures QuoteFree(ts) ==> SafeTextOf(d, ts) == TextOf(d, d.Postgres?, ts)
    ensures !QuoteFree(ts) ==> |SafeTextOf(d, ts)| > |TextOf(d, d.Postgres?, ts)|
  {
    if ts != [] {
      RawIsSafeIff(d, ts[1..]);
      RawToken(d, ts[0]);
      assert ts == [ts[0]] + ts[1..];
    }
  }

  lemma RawToken(d: Dialect, t: Token)
    ensures |SafeText(d, t)| >= |Text(d, d.Postgres?, t)|
    ensures QuoteFree([t]) ==> SafeText(d, t) == Text(d, d.Postgres?, t)
    ensures !QuoteFree([t]) ==> |SafeText(d, t)| > |Text(d, d.Postgres?, t)|
  {
    if t.Pred? && t.atom.Compare? {
      EscapeLength(t.atom.path);
      assert t in [t];
    }
  }

  // ----- The WHERE clause, read back -----

  /** The fields can be spliced in: no quote, and for Postgres no `?`. */
  ghost predicate Spliceable(d: Dialect, f: FilterExpr) {
    forall l :: l in Leaves(f) ==> '\'' !in l.field && (d.Postgres? ==> '?' !in l.field)
  }

  lemma SpliceableTokens(d: Dialect, f: FilterExpr)
    ensures QuoteFree(WhereTokens(d, f)) <==> forall l :: l in Leaves(f) ==> '\'' !in l.field
  {
    hide Group, PathText, Leaves;
    if QuoteFree(WhereTokens(d, f)) {
      forall l | l in Leaves(f) ensures '\'' !in l.field {
        var k := LeafInWhere(d, f, l);
        PathChars(d, l.field, '\'');
      }
    }
    if forall l :: l in Leaves(f) ==> '\'' !in l.field {
      forall t | t in WhereTokens(d, f) && t.Pred? && t.atom.Compare? ensures '\'' !in t.atom.path {
        var l := WhereTestIsLeaf(d, f, t);
        PathChars(d, l.field, '\'');
      }
    }
  }

  lemma {:induction false} NumberedByTests(d: Dialect, ts: seq<Token>, leaves: seq<FilterExpr>, n: nat)
    requires forall l :: l in leaves ==> l.Leaf?
    requires PredsIn(ts) == TestsOf(d, leaves, n)
    ensures NumberedFrom(ts, n)
    decreases |ts|
  {
    hide PathText, TestsOf, PredsIn;
    if ts != [] {
      FirstTest(d, ts, leaves, n);
      NumberedByTests(d, ts[1..], if ts[0].Pred? then leaves[1..] else leaves, After(ts[0], n));
    }
  }

  lemma WhereNumbered(d: Dialect, f: FilterExpr)
    ensures NumberedFrom(WhereTokens(d, f), 1)
  {
    hide Group, PathText;
    GroupTests(d, f, 2);
    NumberedByTests(d, Group(d, f, 2), Leaves(f), 2);
    var ts := WhereTokens(d, f);
    assert ts[1..] == [KwAnd] + Group(d, f, 2) && ts[1..][1..] == Group(d, f, 2);
  }

  /**
   * The text a search sends reads back as the tokens of its filter, inside the parentheses after the
   * namespace test, exactly when no field holds a quote (nor, for Postgres, a `?`).
   */
  lemma WhereLexesIff(d: Dialect, prefix: string, f: FilterExpr, jsonText: JsonText)
    ensures Lex(d, SearchWhere(d, prefix, Some(f), jsonText).0, 1) == Some(WhereTokens(d, f)) <==> Spliceable(d, f)
  {
    hide WhereTokens, SearchWhere, Lex, TextOf, SafeTextOf, QuoteFree;
    var where, ts := SearchWhere(d, prefix, Some(f), jsonText).0, WhereTokens(d, f);
    SpliceableTokens(d, f);
    RawIsSafeIff(d, ts);
    WhereIsTokensIff(d, prefix, f, jsonText);
    if Spliceable(d, f) {
      WhereNumbered(d, f);
      LexPrinted(d, ts, 1);
    }
    if Lex(d, where, 1) == Some(ts) {
      LexCost(d, where, 1);
      if d.Postgres? {
        WhereHasNoMark(prefix, f, jsonText);
        NoMarkInFields(f, where);
      }
    }
  }

  /** Literals read from a text without marks have none. */
  lemma NoMarkInFields(f: FilterExpr, where: string)
    requires '?' !in where
    requires forall t :: t in WhereTokens(Postgres, f) ==> PathWithin(t, where)
    ensures MarkFree(f)
  {
    hide Group, PathText, Leaves, WhereTokens;
    forall l | l in Leaves(f) ensures '?' !in l.field {
      var k := LeafInWhere(Postgres, f, l);
      var t := Pred(Compare(l.op, PathText(Postgres, l.field)), k);
      assert PathWithin(t, where);
      PathChars(Postgres, l.field, '?');
    }
  }

  /** What the database reads: the text, lexed and parsed. */
  function ReadCondition(d: Dialect, text: string): Option<Condition> {
    var ts :- Lex(d, text, 1);
    Parse(ts)
  }
}
