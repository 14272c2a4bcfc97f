/** How a database reads the path literal of a comparison, and when that is the path the evaluator walks. */
module SqlPaths {
  import opened Wrappers
  import opened Json
  import opened Namespaces
  import opened Filters
  import opened SqlCompiler
  import opened SqlMeaning

  // ----- Reading a path literal -----

  /** SQLite: `$` and labels, each after a dot. Subscripts and quoted labels are other forms, not read here. */
  function ReadSqlite(literal: string): Option<seq<string>> {
    if |literal| < 2 || literal[..2] != "$." || '[' in literal then None
    else
      var labels := Split(literal[2..], '.');
      if exists i :: 0 <= i < |labels| && (labels[i] == "" || labels[i][0] == '"') then None else Some(labels)
  }

  predicate Blank(c: char) {
    c in " \t\n\r" || c == '\U{0B}' || c == '\U{0C}'
  }

  function TrimLeft(s: string): string {
    if s != "" && Blank(s[0]) then TrimLeft(s[1..]) else s
  }

  function TrimRight(s: string): string {
    if s != "" && Blank(s[|s| - 1]) then TrimRight(s[..|s| - 1]) else s
  }

  function Trim(s: string): string {
    TrimRight(TrimLeft(s))
  }

  function TrimEach(parts: seq<string>): (r: seq<string>)
    ensures |r| == |parts| && forall i :: 0 <= i < |r| ==> r[i] == Trim(parts[i])
  {
    seq(|parts|, i requires 0 <= i < |parts| => Trim(parts[i]))
  }

  /** An unquoted NULL in any letter case is no element but a null. */
  predicate NullWord(s: string) {
    |s| == 4 && s[0] in "nN" && s[1] in "uU" && s[2] in "lL" && s[3] in "lL"
  }

  predicate Reserved(c: char) {
    c in "{}\"\\"
  }

  /**
   * Postgres: a text array, its elements between braces and separated by commas, blanks around each
   * dropped. Quoted, escaped and nested elements are other forms, not read here; an element left empty is
   * an error and a null element selects nothing.
   */
  function ReadPostgres(literal: string): Option<seq<string>> {
    if |literal| < 2 || literal[0] != '{' || literal[|literal| - 1] != '}' then None
    else
      var inner := literal[1..|literal| - 1];
      var elements := TrimEach(Split(inner, ','));
      if exists i :: 0 <= i < |inner| && Reserved(inner[i]) then None
      else if TrimLeft(inner) == "" then Some([])
      else if exists i :: 0 <= i < |elements| && (elements[i] == "" || NullWord(elements[i])) then None
      else Some(elements)
  }

  function ReadPath(d: Dialect, literal: string): Option<seq<string>> {
    match d
    case Sqlite => ReadSqlite(literal)
    case Postgres => ReadPostgres(literal)
  }

  // ----- Following the parts -----

  function DigitsValue(s: string): int {
    if s == "" then 0 else DigitsValue(s[..|s| - 1]) * 10 + (s[|s| - 1] as int - '0' as int)
  }

  predicate Digits(s: string) {
    s != "" && forall i :: 0 <= i < |s| ==> '0' <= s[i] <= '9'
  }

  /** A decimal integer of 32 bits, with or without a sign. */
  function ReadInt(s: string): Option<int> {
    var negative := s != "" && s[0] == '-';
    var digits := if s != "" && (s[0] == '-' || s[0] == '+') then s[1..] else s;
    var i := if negative then -DigitsValue(digits) else DigitsValue(digits);
    if Digits(digits) && -0x8000_0000 <= i < 0x8000_0000 then Some(i) else None
  }

  /** Postgres steps into arrays by position, negative ones from the end; `Walk` only into objects. */
  function WalkArrays(value: Json, parts: seq<string>): Option<Json>
    decreases |parts|
  {
    if parts == [] then Some(value)
    else if value.Object? && parts[0] in value.fields then WalkArrays(value.fields[parts[0]], parts[1..])
    else if value.Array? && ReadInt(parts[0]).Some? then
      var i, n := ReadInt(parts[0]).value, |value.items|;
      if 0 <= i < n then WalkArrays(value.items[i], parts[1..])
      else if -n <= i < 0 then WalkArrays(value.items[n + i], parts[1..])
      else None
    else None
  }

  function Follow(d: Dialect, value: Json, parts: seq<string>): Option<Json> {
    if d.Sqlite? then Walk(value, parts) else WalkArrays(value, parts)
  }

  /** What the database finds for a path literal. */
  function Found(d: Dialect, literal: string, value: Json): Option<Json> {
    match ReadPath(d, literal)
    case None => None
    case Some(parts) => Follow(d, value, parts)
  }

  // ----- Which fields are read as they were meant -----

  predicate PlainPart(d: Dialect, part: string) {
    part != "" &&
    match d
    case Sqlite => part[0] != '"' && '[' !in part
    case Postgres =>
      && !Blank(part[0]) && !Blank(part[|part| - 1]) && !NullWord(part)
      && ',' !in part && forall i :: 0 <= i < |part| ==> !Reserved(part[i])
  }

  predicate PlainField(d: Dialect, field: string) {
    var parts := Split(field, '.');
    forall i :: 0 <= i < |parts| ==> PlainPart(d, parts[i])
  }

  lemma {:induction false} PieceChars(s: string, sep: char, i: nat)
    requires i < |Split(s, sep)|
    ensures forall c :: c in Split(s, sep)[i] ==> c in s
  {
    if s != "" {
      var rest := Split(s[1..], sep);
      assert s == [s[0]] + s[1..];
      if s[0] != sep {
        PieceChars(s[1..], sep, i);
      } else if i > 0 {
        PieceChars(s[1..], sep, i - 1);
      }
    }
  }

  lemma {:induction false} PieceWith(s: string, sep: char, c: char) returns (i: nat)
    requires c in s && c != sep
    ensures i < |Split(s, sep)| && c in Split(s, sep)[i]
  {
    assert s == [s[0]] + s[1..];
    if s[0] == c {
      i := 0;
    } else {
      i := PieceWith(s[1..], sep, c);
      if s[0] == sep {
        i := i + 1;
      }
    }
  }

  lemma SplitChars(s: string, sep: char, c: char)
    requires c != sep
    ensures c in s <==> exists i :: 0 <= i < |Split(s, sep)| && c in Split(s, sep)[i]
  {
    hide Split;
    if c in s {
      var i := PieceWith(s, sep, c);
    }
    if i :| 0 <= i < |Split(s, sep)| && c in Split(s, sep)[i] {
      PieceChars(s, sep, i);
    }
  }

  lemma ReadSqliteIff(field: string)
    ensures ReadPath(Sqlite, PathText(Sqlite, field)) == Some(Split(field, '.')) <==> PlainField(Sqlite, field)
  {
    var literal, parts := PathText(Sqlite, field), Split(field, '.');
    assert literal == "$." + field && literal[..2] == "$." && literal[2..] == field;
    assert '[' in literal <==> '[' in field;
    SplitChars(field, '.', '[');
  }

  // Postgres

  lemma TrimKeeps(s: string)
    requires s != "" && !Blank(s[0]) && !Blank(s[|s| - 1])
    ensures Trim(s) == s && TrimLeft(s) == s
  {
  }

  lemma {:induction false} TrimLeftBare(s: string)
    ensures var r := TrimLeft(s); (r != "" ==> !Blank(r[0])) && forall c :: c in r ==> c in s
  {
    if s != "" && Blank(s[0]) {
      TrimLeftBare(s[1..]);
    }
  }

  lemma {:induction false} TrimRightBare(s: string)
    ensures var r := TrimRight(s); (r != "" ==> !Blank(r[|r| - 1])) && r <= s
  {
    if s != "" && Blank(s[|s| - 1]) {
      TrimRightBare(s[..|s| - 1]);
    }
  }

  /** A trimmed element starts and ends without a blank and holds nothing that was not there. */
  lemma TrimBare(s: string)
    ensures var r := Trim(s);
      (r != "" ==> !Blank(r[0]) && !Blank(r[|r| - 1])) && forall c :: c in r ==> c in s
  {
    TrimLeftBare(s);
    TrimRightBare(TrimLeft(s));
  }

  /** Splitting undoes joining when no part holds the separator. */
  lemma {:induction false} SplitJoined(parts: seq<string>)
    requires parts != [] && forall i :: 0 <= i < |parts| ==> ',' !in parts[i]
    ensures Split(Join(parts, ","), ',') == parts
  {
    if |parts| == 1 {
      JoinOne(parts[0], ",");
      SplitPiece(parts[0], "", ',');
      assert parts == [parts[0]];
    } else {
      SplitJoined(parts[1..]);
      JoinCons(parts);
      SplitPiece(parts[0], Join(parts[1..], ","), ',');
      assert parts == [parts[0]] + parts[1..];
    }
  }

  lemma JoinCons(parts: seq<string>)
    requires |parts| > 1
    ensures Join(parts, ",") == parts[0] + "," + Join(parts[1..], ",")
  {
    assert parts[1..] == [parts[1]] + parts[1..][1..];
  }

  lemma ReservedIff(field: string, inner: string)
    requires inner == Join(Split(field, '.'), ",")
    ensures var parts := Split(field, '.');
      (exists i :: 0 <= i < |inner| && Reserved(inner[i])) <==>
      exists k, i :: 0 <= k < |parts| && 0 <= i < |parts[k]| && Reserved(parts[k][i])
  {
    hide Join, Split;
    var parts := Split(field, '.');
    forall c: char | Reserved(c) ensures c in inner <==> exists k :: 0 <= k < |parts| && c in parts[k] {
      JoinedChars(field, c);
      SplitChars(field, '.', c);
    }
    if i :| 0 <= i < |inner| && Reserved(inner[i]) {
      assert inner[i] in inner;
      var k :| 0 <= k < |parts| && inner[i] in parts[k];
      var j :| 0 <= j < |parts[k]| && parts[k][j] == inner[i];
    }
    if k, i :| 0 <= k < |parts| && 0 <= i < |parts[k]| && Reserved(parts[k][i]) {
      assert parts[k][i] in parts[k] && parts[k][i] in inner;
    }
  }

  lemma ReadPostgresIff(field: string)
    ensures ReadPath(Postgres, PathText(Postgres, field)) == Some(Split(field, '.')) <==> PlainField(Postgres, field)
  {
    var literal, parts := PathText(Postgres, field), Split(field, '.');
    var inner := Join(parts, ",");
    assert literal == "{" + inner + "}" && literal[1..|literal| - 1] == inner;
    ReservedIff(field, inner);
    hide Join, Split, Trim, TrimLeft, Blank, NullWord, Reserved;
    if PlainField(Postgres, field) {
      PlainElements(field);
    }
    if ReadPostgres(literal) == Some(parts) {
      ReadMeansPlain(field);
    }
  }

  lemma PlainElements(field: string)
    requires PlainField(Postgres, field)
    ensures var parts := Split(field, '.');
      var inner := Join(parts, ",");
      TrimEach(Split(inner, ',')) == parts && TrimLeft(inner) != ""
  {
    var parts := Split(field, '.');
    SplitJoined(parts);
    JoinStart(parts);
    hide Join, Split, NullWord, Reserved;
    forall i | 0 <= i < |parts| ensures Trim(parts[i]) == parts[i] {
      TrimKeeps(parts[i]);
    }
  }

  lemma JoinStart(parts: seq<string>)
    requires parts != [] && parts[0] != ""
    ensures Join(parts, ",") != "" && Join(parts, ",")[0] == parts[0][0]
  {
  }

  lemma ReadMeansPlain(field: string)
    requires ReadPath(Postgres, PathText(Postgres, field)) == Some(Split(field, '.'))
    ensures PlainField(Postgres, field)
  {
    var literal, parts := PathText(Postgres, field), Split(field, '.');
    var inner := Join(parts, ",");
    assert literal == "{" + inner + "}" && literal[1..|literal| - 1] == inner;
    ReservedIff(field, inner);
    var pieces := Split(inner, ',');
    assert TrimEach(pieces) == parts;
    hide Join, Split, Trim, TrimLeft, Blank, NullWord, Reserved;
    forall i | 0 <= i < |parts| ensures PlainPart(Postgres, parts[i]) {
      TrimBare(pieces[i]);
      assert pieces[i] in pieces;
    }
  }

  /** The literal reads back as the parts of the field exactly when no part holds what its dialect treats specially. */
  lemma ReadPathIff(d: Dialect, field: string)
    ensures ReadPath(d, PathText(d, field)) == Some(Split(field, '.')) <==> PlainField(d, field)
  {
    match d
    case Sqlite => ReadSqliteIff(field);
    case Postgres => ReadPostgresIff(field);
  }

  // ----- And found where the evaluator looks -----

  /** Plain, and for Postgres without a part that is the position of an array element. */
  predicate Addressed(d: Dialect, field: string) {
    var parts := Split(field, '.');
    PlainField(d, field) && (d.Postgres? ==> forall i :: 0 <= i < |parts| ==> ReadInt(parts[i]).None?)
  }

  lemma {:induction false} WalksAgree(value: Json, parts: seq<string>)
    requires forall i :: 0 <= i < |parts| ==> ReadInt(parts[i]).None?
    ensures WalkArrays(value, parts) == Walk(value, parts)
  {
    hide ReadInt;
    if parts != [] && value.Object? && parts[0] in value.fields {
      WalksAgree(value.fields[parts[0]], parts[1..]);
    }
  }

  /** An object with `leaf` at the path and nothing else. */
  ghost function Nest(parts: seq<string>, leaf: Json): Json {
    if parts == [] then leaf else Object(map[parts[0] := Nest(parts[1..], leaf)])
  }

  lemma {:induction false} WalkNest(parts: seq<string>, leaf: Json)
    ensures Walk(Nest(parts, leaf), parts) == Some(leaf)
  {
    if parts != [] {
      WalkNest(parts[1..], leaf);
    }
  }

  /** Only that path leads to the leaf. */
  lemma {:induction false} NestOnly(d: Dialect, parts: seq<string>, other: seq<string>)
    requires Follow(d, Nest(parts, Json.Null), other) == Some(Json.Null)
    ensures other == parts
  {
    if parts != [] && other != [] {
      NestOnly(d, parts[1..], other[1..]);
      assert parts == [parts[0]] + parts[1..] && other == [other[0]] + other[1..];
    }
  }

  /** As `Nest`, but with an array wherever a part is a position. */
  ghost function NestArrays(parts: seq<string>): Json {
    if parts == [] then Json.Null
    else
      var inner := NestArrays(parts[1..]);
      match ReadInt(parts[0])
      case None => Object(map[parts[0] := inner])
      case Some(i) => Array(seq(if i >= 0 then i + 1 else -i, _ => inner))
  }

  lemma {:induction false} OnlyWalkArraysFinds(parts: seq<string>)
    ensures WalkArrays(NestArrays(parts), parts) == Some(Json.Null)
    ensures (exists i :: 0 <= i < |parts| && ReadInt(parts[i]).Some?) ==> Walk(NestArrays(parts), parts) == None
  {
    hide ReadInt;
    if parts != [] {
      OnlyWalkArraysFinds(parts[1..]);
      if i :| 0 <= i < |parts| && ReadInt(parts[i]).Some? {
        if ReadInt(parts[0]).None? {
          assert parts[1..][i - 1] == parts[i];
        }
      }
    }
  }

  /**
   * The database finds what the evaluator finds, over every value, exactly when the field is read as it
   * was meant and Postgres takes no part of it for a position.
   */
  lemma FoundIff(d: Dialect, field: string)
    ensures (forall value :: Found(d, PathText(d, field), value) == GetField(value, field)) <==> Addressed(d, field)
  {
    var parts := Split(field, '.');
    ReadPathIff(d, field);
    hide ReadPath, PathText, PlainField, Split;
    if Addressed(d, field) {
      forall value ensures Found(d, PathText(d, field), value) == GetField(value, field) {
        if d.Postgres? {
          WalksAgree(value, parts);
        }
      }
    } else if !PlainField(d, field) {
      var value := Nest(parts, Json.Null);
      WalkNest(parts, Json.Null);
      if Found(d, PathText(d, field), value) == GetField(value, field) {
        NestOnly(d, parts, ReadPath(d, PathText(d, field)).value);
      }
    } else {
      OnlyWalkArraysFinds(parts);
      assert Found(d, PathText(d, field), NestArrays(parts)) != GetField(NestArrays(parts), field);
    }
  }

  // ----- The clauses in full -----

  /** A comparison after its path. */
  function Back(d: Dialect, op: CmpOp): string {
    "'" + Middle(d, Ordered(op)) + OpText(op) + Lead(Ordered(op)) + "?" + Tail(d, op)
  }

  lemma AroundPath(d: Dialect, op: CmpOp, field: string, v: Json)
    ensures FilterToSql(d, Leaf(op, field, v)).0 == Front(d, Ordered(op)) + PathText(d, field) + Back(d, op)
  {
    hide Front, Middle, OpText, Lead, Tail, PathText;
  }

  lemma BackTexts(d: Dialect, op: CmpOp)
    ensures !Ordered(op) ==> Back(d, op) == (if d.Sqlite? then "') " else "' ") + OpText(op) + " ?"
    ensures Ordered(op) && d.Sqlite? ==> Back(d, op) == "') AS REAL) " + OpText(op) + " CAST(? AS REAL)"
    ensures Ordered(op) && d.Postgres? ==> Back(d, op) == "')::numeric " + OpText(op) + " CAST(? AS numeric)"
  {
    var o := OpText(op);
    hide OpText;
    assert "'" + ") " == "') " && "'" + " " == "' " && " " + "?" == " ?";
    assert "'" + ") AS REAL) " == "') AS REAL) " && " CAST(" + "?" + " AS REAL)" == " CAST(? AS REAL)";
    assert "'" + ")::numeric " == "')::numeric " && " CAST(" + "?" + " AS numeric)" == " CAST(? AS numeric)";
    Regroup("'" + Middle(d, Ordered(op)), o, Lead(Ordered(op)), "?", Tail(d, op));
    assert " " + "?" + "" == " ?";
  }

  lemma Regroup(a: string, b: string, c: string, e: string, f: string)
    ensures a + b + c + e + f == a + b + (c + e + f)
  {
  }

  /** The six comparisons as SQLite reads them. */
  lemma SqliteTexts(field: string, v: Json)
    ensures var plain, cast := "json_extract(value, '" + ("$." + field), "CAST(json_extract(value, '" + ("$." + field);
      && FilterToSql(Sqlite, Leaf(Eq, field, v)).0 == plain + ("') " + "=" + " ?")
      && FilterToSql(Sqlite, Leaf(Ne, field, v)).0 == plain + ("') " + "!=" + " ?")
      && FilterToSql(Sqlite, Leaf(Gt, field, v)).0 == cast + ("') AS REAL) " + ">" + " CAST(? AS REAL)")
      && FilterToSql(Sqlite, Leaf(Gte, field, v)).0 == cast + ("') AS REAL) " + ">=" + " CAST(? AS REAL)")
      && FilterToSql(Sqlite, Leaf(Lt, field, v)).0 == cast + ("') AS REAL) " + "<" + " CAST(? AS REAL)")
      && FilterToSql(Sqlite, Leaf(Lte, field, v)).0 == cast + ("') AS REAL) " + "<=" + " CAST(? AS REAL)")
  {
    hide FilterToSql, Back;
    forall op ensures FilterToSql(Sqlite, Leaf(op, field, v)).0
                   == Front(Sqlite, Ordered(op)) + PathText(Sqlite, field) + Back(Sqlite, op) {
      AroundPath(Sqlite, op, field, v);
    }
    forall op { BackTexts(Sqlite, op); }
  }

  /** And as Postgres reads them, over a nested field. */
  lemma PostgresTexts(outer: string, inner: string, v: Json)
    requires '.' !in outer && '.' !in inner
    ensures var field, path := outer + "." + inner, "{" + (outer + "," + inner) + "}";
      var plain, cast := "value #>> '" + path, "(value #> '" + path;
      && FilterToSql(Postgres, Leaf(Eq, field, v)).0 == plain + ("' " + "=" + " ?")
      && FilterToSql(Postgres, Leaf(Ne, field, v)).0 == plain + ("' " + "!=" + " ?")
      && FilterToSql(Postgres, Leaf(Gt, field, v)).0 == cast + ("')::numeric " + ">" + " CAST(? AS numeric)")
      && FilterToSql(Postgres, Leaf(Gte, field, v)).0 == cast + ("')::numeric " + ">=" + " CAST(? AS numeric)")
      && FilterToSql(Postgres, Leaf(Lt, field, v)).0 == cast + ("')::numeric " + "<" + " CAST(? AS numeric)")
      && FilterToSql(Postgres, Leaf(Lte, field, v)).0 == cast + ("')::numeric " + "<=" + " CAST(? AS numeric)")
  {
    SplitPiece(outer, inner, '.');
    SplitPiece(inner, "", '.');
    JoinTwo(outer, inner, ",");
    var field := outer + "." + inner;
    assert Split(field, '.') == [outer, inner];
    hide FilterToSql, Back, Split, Join;
    forall op ensures FilterToSql(Postgres, Leaf(op, field, v)).0
                   == Front(Postgres, Ordered(op)) + PathText(Postgres, field) + Back(Postgres, op) {
      AroundPath(Postgres, op, field, v);
    }
    forall op { BackTexts(Postgres, op); }
  }
}
